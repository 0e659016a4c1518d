# Verified model of Paper LMS

Dafny models of the parts of Paper LMS whose behaviour is decided by non-trivial code, and proofs of what they promise.
`dafny verify dfyconfig.toml` checks the whole project.

| Files | Component |
|---|---|
| `Text`, `QtiModel`, `QtiExporter`, `QtiParserClassic` | Canvas Classic export and import of quiz questions: item trees written and read back by type |
| `QtiForeignItems`, `QtiForeignBlanks`, `QtiForeignFields`, `QtiForeignComments` | what the importer reads out of any item, whoever wrote it |
| `QtiKeyTrip`, `QtiDropdownTrip`, `QtiBlanksTrip`, `QtiRoundTrip` | the export/import round trip of one question, once and twice |
| `QtiAssessment` | whole quizzes and item banks: stable sort, section walk, positions |
| `QtiGrading`, `QtiMatchingVerdicts`, `QtiNumerical`, `QtiNumberVerdicts` | what the trip and the import mean to a student: verdicts of grading before and after |
| `Ber`, `LdapFraming`, `LdapFilter`, `LdapFilterTrees`, `LdapCompiler`, `LdapOddFilters`, `LdapEncodings`, `LdapEscape`, `LdapFilling`, `LdapBlanks`, `LdapShapes`, `LdapTemplates` | LDAP: BER lengths, message framing over chunked reads, the search filter compiler, what its output says, username escaping |
| `GraphQLParser`, `GraphQLPrinter`, `GraphQLInverse`, `GraphQLAcceptance` | the recursive-descent GraphQL parser, its inverse, and exactly what it accepts |
| `EditDistance`, `StaleColumns` | the two-row edit distance and the rename heuristic of the stale-column report |
| `MfaRateLimit`, `MfaAccountSteps`, `MfaAccountRace`, `MfaTokenSteps`, `MfaTokenRace` | second-factor attempt caps per account and, step by step, per account and per token |
| `ReplayCache` | the SAML assertion replay cache |
| `Scheduler`, `LeaderLock` | the job scheduler's tick and the cross-pod lock |
| `LoginPipeline`, `LoginResolution`, `LoginRuns` | whom a verified credential resolves to and what happens then, over any run of logins |

Code that updates variables, maps or arrays step by step is a method or class proved against a specification function;
the theorems are lemmas about those functions. Protocols are state machines whose theorems quantify over every run.
The clock, the network, the database, hashing, lower casing, number parsing and the character classes of the standard
library are parameters.

## Where the code and its documentation differ

The model follows the code. The lemmas named here say exactly when the documented behaviour holds.

- Export is documented as a lossless round trip for all but four types (`internal/qti/exporter.go:28`). Short answers of
  weight 0 are accepted in grading but not exported (`ShortVerdictsSurvive`, `ZeroWeightIsLost`). Blanks without a text to
  accept or with a prefixed name do not come back, and a key in the array shape, which grading accepts, is lost whole;
  of a map that grading cannot decode the exporter writes the blanks it can (`BlanksVerdictsSurvive`, `BlanksAreLost`).
  Matching labels are not exported, so students' pairs are looked up under other names; a pair without an id, the shape
  grading documents, loses its right id, and so does one that spells it `match_id` (`MatchingVerdictsSurvive`,
  `FieldsDecideMatching`, `PairWithoutIdIsLost`, `MatchIdIsLost`). Dropdown options whose ids are not trimmed are no
  longer accepted, and blanks whose names differ in the prefix are merged
  (`DropdownVerdictsSurvive`, `UntrimmedOptionIsLost`, `PrefixedBlankGetsAnswered`). Ids that start with
  `response_response_` lose one prefix on every trip (`TripTwice`, `PrefixBreaksSecondTrip`).
- Numerical questions and formulas are among the types documented as lossless, and the exporter's comment announces the
  margin with the value (`internal/qti/exporter.go:349`). Only texts are written: margins, exact values, ranges,
  precisions and expected values kept in fields of their own are lost, and with them the verdicts they gave
  (`NumericalVerdictsSurvive`, `OneAnswerSurvives`, `MarginIsLost`, `FormulaVerdictsSurvive`, `AnswerValueIsLost`). So
  is a formula with its variables: an item that was graded against each attempt's own values is scored by hand after the
  trip, or against its text if it has one (`FormulaIsLost`, `DoubledVariableIsLost`, `TextReplacesFormula`).
- Precision bands are imported "as a range so the accepted interval is preserved"
  (`internal/qti/parser_classic.go:556`), but the range includes the end the band excludes (`PrecisionSurvives`,
  `ExcludedEndIsAccepted`). A margin is centred on the value even where the band is not, and it is computed in float64
  while grading is exact: the ends of 0.2 with a margin of 0.1 are no longer accepted (`MarginSurvives`,
  `OffCentreMarginIsLost`, `DecimalMarginIsLost`).
- Feedback blocks with the ident `general_incorrect` are announced as incorrect comments
  (`internal/qti/parser_classic.go:286`) and taken for the general one (`RoleIff`, `GeneralIncorrectIsGeneral`).
- The username in a search filter is described as sanitised (`internal/auth/ldap.go:160`). Escaping keeps blanks, and the
  compiler trims a leaf that is written without parentheses: in the template `cn=*%s` a username of blanks asks for
  presence, which every entry with the attribute meets (`NameKeepsShapeIff`, `BlankNameAsksPresence`). With all
  parentheses in place no non-empty username has such an effect (`EscapedNameIsInert`).
- The per-account limit is described as a rolling window (`internal/auth/mfa_rate_limit.go:46`). It is a fixed window:
  the cap holds in every interval in which no window is renewed after a success, and a renewal inside the interval
  allows twice the cap (`CapHoldsWithoutRenewal`, `CapExceededIffRenewedInside`, `AtMostTwiceTheCap`). The sweeper may
  delete a record that was rolled forward after its test, which gives the account a third budget
  (`AtMostTwiceTheCapPerLateDeletion`, `LateDeletionGivesThirdBudget`).
- Resetting a token's attempts is described as merely tidy (`internal/auth/mfa_rate_limit.go:164`); each reset
  hands out a fresh budget while the token is valid (`AtMostCapWhileValid`, `ResetsLiftTheCap`). Nothing in the
  program calls it.
- `findRenameTarget` documents a rule per column but applies its length test only to the first column at distance 1
  (`PlausibleColumnMissed`, `LongColumnIsMissed`).
- The scheduler's `lastRun` and the leader lock are described as running a job once per window; the lock is free again
  when the job returns, and a later try for the same window is granted (`StartsAreAccounted`, `TwiceIffGrantedAgain`,
  `WindowCanRunTwice`). Even mutual exclusion holds only while no running job's database session is lost
  (`MutualExclusion`, `OverlapIff`, `LostSessionLetsAnotherIn`).
- Automatic links to a super_admin are refused because a provider must not reach one
  (`internal/auth/login_pipeline.go:83-91`), but the role of a user who is already bound is not looked at: promoted later,
  the user signs in through the provider as super_admin (`NoFederatedSuperAdmin`, `PromotedUserGetsIn`).

## Model

| member | source | states |
|---|---|---|
| `QtiRoundTrip.RoundTrip` | internal/qti/exporter.go:28-31 | For every question that exports, the importer accepts the item and the only question it can make of it, in whatever order it visits feedback blocks, is `TripOf`: type degraded by the tables, text and comments trimmed, points defaulted to 1, answers as the per-type trips say. Both directions. |
| `QtiRoundTrip.TripTwice` | internal/qti/exporter.go:28-31 | For every question of every type, a second export and import returns the re-imported question unchanged if and only if the question is `Steady`, a condition on its own option and blank ids. |
| `QtiRoundTrip.BareIsSteady` | internal/qti/parser_classic.go:616-637 | If no option or blank id starts with `response_`, the question is steady, so the promised idempotence holds. |
| `QtiRoundTrip.PrefixBreaksSecondTrip` | internal/qti/parser_classic.go:632-637 | A concrete matching question, its id carrying the prefix twice, that a second trip changes. |
| `QtiRoundTrip.ExportFails` | internal/qti/exporter.go:225-229 | A question fails to export exactly when its type lists options and its answers are not an option array. |
| `QtiRoundTrip.CommentsAreRead` | internal/qti/parser_classic.go:264-320 | Exported comments come back trimmed, each in its own field and in no other, whatever order the index of feedback blocks is visited in. |
| `QtiRoundTrip.FieldsAreRead` | internal/qti/exporter.go:157-198 | The prompt and the three comments come back trimmed, and the points as they were, or as 1 if there were none. |
| `QtiRoundTrip.TypesDegrade` | internal/qti/mapping.go:71-135 | Exporting a type and importing what was written gives the type itself, except for the four types with no Classic equivalent and unlisted types, which become matching, multiple choice, short answer and essay. |
| `QtiKeyTrip.ChoiceKeyIsRead` | internal/qti/parser_classic.go:419-468 | Whatever the ids, a choice question comes back with every option in place, text trimmed, correct exactly when some option with that id had a positive weight. |
| `QtiKeyTrip.ChoiceKeySurvives` | internal/qti/parser_classic.go:419-468 | With distinct ids each option comes back correct exactly when its own weight was positive. |
| `QtiKeyTrip.ShortKeyIsRead` | internal/qti/parser_classic.go:470-484 | Short answers come back as the texts of the positively weighted options, in order, renumbered. |
| `QtiKeyTrip.NumbersAreDecoded` | internal/qti/parser_classic.go:522-542 | The numbers decoded from an exported key are its non-blank texts, trimmed, in order, renumbered. |
| `QtiKeyTrip.MatchingKeyIsRead` | internal/qti/parser_classic.go:623-675 | Each left item of a matching question comes back under its bare id with the first non-blank right id its exported key gives it. |
| `QtiKeyTrip.MatchingTripTwice` | internal/qti/parser_classic.go:623-675 | A second trip keeps a matching question's answers if and only if no left id carries the prefix twice and left ids that agree up to one prefix agree on their right id. |
| `QtiKeyTrip.HotSpotKeyIsRead` | internal/qti/exporter.go:244-268 | What an exported hot spot is read back as: one untitled choice, whatever its regions were. |
| `QtiForeignItems.ChoiceItemIsRead` | internal/qti/parser_classic.go:419-468 | For every item whatever wrote it: the options are the labels of the first response in order, and option i has weight 100 if and only if some condition of positive score has, directly, under and or under or, a varequal for that response or for none whose value is the label's ident. |
| `QtiForeignItems.AndKeyIsRead` | internal/qti/parser_classic_test.go:97-118 | Two right options under one and, of three. |
| `QtiForeignItems.ShortAnswerItemIsRead` | internal/qti/parser_classic.go:841-862 | For every item: the accepted answers are the values of the conditions of positive score, condition by condition, the direct ones first, then those under and, then those under or, each at its own place. |
| `QtiForeignItems.MatchingItemIsRead` | internal/qti/parser_classic.go:623-675 | For every item: one entry per response in order, whose right id is the first that is not blank among the first direct varequals its conditions of positive score have for it; then each offered label at its first offer. |
| `QtiForeignItems.LabelsByPlace` | internal/qti/parser_classic.go:655-667 | The labels of the responses, one response after the other. |
| `QtiForeignItems.DropdownItemIsRead` | internal/qti/parser_classic.go:766-802 | For every item: the labels of all responses in order under their own blank, marked exactly by a direct varequal for that response in a condition of positive score. |
| `QtiForeignItems.FirstTextIsRead` | internal/qti/parser_classic.go:881-890 | The first text that is not blank, trimmed. |
| `QtiForeignBlanks.BlanksItemIsRead` | internal/qti/parser_classic.go:681-764 | For every item: a text is accepted for a blank if and only if a response with that blank offers it as a label, or a condition of positive score demands it, directly or under and or or, by value or by naming a label; no list is empty or repeats a text. |
| `QtiForeignFields.MetadataIsRead` | internal/qti/parser_classic.go:230-258 | For every item: the last question_type decides the type or rejects the item; the last points that are a number count, or else 1. |
| `QtiForeignFields.NumericalItemIsRead` | internal/qti/parser_classic.go:487-543 | For every item: an exact answer in the metadata is the only one; otherwise each condition of positive score that can be decoded gives one, numbered in order. |
| `QtiForeignFields.BandConditionIsRead` | internal/qti/parser_classic.go:547-571 | For every condition with a varequal under or: its first value with half the width of the band, a range if the lower bound excludes itself, or the value alone without a complete band. |
| `QtiForeignFields.PlainConditionIsRead` | internal/qti/parser_classic.go:572-607 | For every other condition: a range from the first bounds that are numbers, bare ones before those under and; otherwise the first direct value. |
| `QtiForeignComments.CommentsOfAnyItem` | internal/qti/parser_classic.go:259-320 | For every item and visiting order: each comment is the text of the last link with its role to a block, else of any block with that role, else empty; of blocks with one ident the last that is not blank counts. |
| `QtiForeignComments.RoleIff` | internal/qti/parser_classic.go:895-911 | Which lower-cased idents are taken for correct, incorrect and general comments. |
| `QtiForeignComments.CaseDoesNotMatter` | internal/qti/parser_classic.go:895-896 | The case of ASCII letters in an ident does not matter. |
| `QtiForeignComments.GeneralIncorrectIsGeneral` | internal/qti/parser_classic.go:283-287 | The ident general_incorrect, announced as that of an incorrect comment, is taken for the general one. |
| `QtiDropdownTrip.DropdownKeySurvives` | internal/qti/parser_classic.go:766-802 | With trimmed option ids, distinct within a blank, and bare blank ids, each option comes back in its blank's group with trimmed text, correct exactly when its own weight was positive. |
| `QtiDropdownTrip.GroupedMembers` | internal/qti/exporter.go:293-316 | Grouping by sorted blank id loses and invents no option. |
| `QtiDropdownTrip.RegroupIsOrdered` | internal/qti/exporter.go:297-316 | The groups come in ascending order of blank id. |
| `QtiDropdownTrip.RegroupingOrdered` | internal/qti/exporter.go:293-316 | Grouping options that are already in blank order changes nothing. |
| `QtiDropdownTrip.DropdownTripTwice` | internal/qti/parser_classic.go:766-802 | A second trip keeps a dropdown question's answers if and only if it is steady: no blank has the prefix twice, dropping it swaps no two blanks, and merged options agree. |
| `QtiBlanksTrip.BlanksSurvive` | internal/qti/parser_classic.go:681-764 | With bare non-empty blank ids, re-import returns the map with each list trimmed, emptied of blanks and deduplicated at first occurrences, and without the blanks whose list became empty. |
| `QtiBlanksTrip.BlanksOfTrip` | internal/qti/parser_classic.go:681-764 | For any map: the blanks that come back are exactly the non-empty bare names of blanks with a text that is not blank. |
| `QtiBlanksTrip.BlanksTripTwice` | internal/qti/parser_classic.go:681-764 | A second trip keeps the map if and only if no blank with a text to accept is named with the prefix twice. |
| `QtiAssessment.StableSortIsUnique` | internal/qti/exporter.go:138-139 | At most one sequence is a stable sort by position of given questions. |
| `QtiAssessment.SortByPosition` | internal/qti/exporter.go:135-139 | Sorts by position, keeping the order of questions that share one. |
| `QtiAssessment.BuildAssessment` | internal/qti/exporter.go:135-147 | The items are those of the stably sorted questions, in order; fails as soon as one question does not export. |
| `QtiAssessment.ParseClassicAssessment` | internal/qti/parser.go:230-259 | Bank references and items of all sections in order; a rejected item takes no position. |
| `QtiAssessment.EntriesByPlace` | internal/qti/parser.go:230-240 | The entries of a file at their places: section by section the bank it names, trimmed, and then its items. |
| `QtiAssessment.FileIsRead` | internal/qti/parser.go:230-259 | Every entry becomes a question or is rejected, in order: question k is made of its entry at position k, whatever was rejected before it. |
| `QtiAssessment.PositionsAreConsecutive` | internal/qti/parser.go:231-259 | Whatever the file holds, imported questions are numbered 0, 1, 2, ... and every entry is either imported or rejected. |
| `QtiAssessment.QuizRoundTrip` | internal/qti/exporter.go:28-31 | When every question exports, no item is rejected on import and question i of the import is, at position i, the trip of question i of the originals stably sorted by position. |
| `QtiAssessment.BuildBank` | internal/qti/exporter.go:443-464 | A bank's items in the order given, each as a question without an id. |
| `QtiAssessment.ParseClassicBank` | internal/qti/parser.go:294-317 | Every accepted item keeps its index in the file as its position. |
| `QtiAssessment.BankPositionsAscend` | internal/qti/parser.go:294-317 | Bank positions ascend strictly and point at the items they were read from, leaving gaps for rejected ones. |
| `QtiAssessment.BankRoundTrip` | internal/qti/exporter.go:443-464 | When every item of a bank exports, item i comes back as its own trip at position i, with its points or with 0 if it had none. |
| `QtiGrading.ChoiceVerdictsSurvive` | internal/service/quiz_grading_service.go:242-512 | Single choice verdicts on every submission and multiple answer verdicts on every selection are the same before and after a round trip. |
| `QtiGrading.BlankVerdictsSurvive` | internal/service/quiz_grading_service.go:570-591 | A fill-in-the-blank question becomes a short answer question: verdicts on all submissions survive if and only if every accepted answer is exported, which fails only for a key the exporter cannot decode because a text is a JSON number. |
| `QtiGrading.ShortVerdictsSurvive` | internal/service/quiz_grading_service.go:267-290 | Short answer verdicts on all submissions survive if and only if every accepted answer, those of weight 0 included, is exported, up to case, with a positive weight. |
| `QtiGrading.ZeroWeightIsLost` | internal/service/quiz_grading_service.go:267-290 | Paris with weight 0 was right and is wrong after the trip. |
| `QtiGrading.BlanksVerdictsSurvive` | internal/service/quiz_grading_service.go:878-937 | For every answers column, in the map shape or the array shape: verdicts on all submissions, including who gives them, survive if and only if it is a map whose blanks all have a bare, non-empty name and a text to accept, or holds no key at all, or is a map grading cannot decode of which nothing the exporter does decode comes back. |
| `QtiGrading.BlanksAreLost` | internal/service/quiz_grading_service.go:916-937 | A blank that accepts only a space, a blank named response_a, a key in the array shape, and a map of which only blank a decodes: each changes some verdict. |
| `QtiGrading.DropdownVerdictsSurvive` | internal/service/quiz_grading_service.go:522-564 | For every list of options: dropdown verdicts on all submissions survive if and only if, in a question that can be answered, named blanks have bare names and an option's id is accepted exactly when it is the trimmed id of an accepted option of its blank; and in one that cannot, no named blank is left or the options under some bare name hold no marked one. |
| `QtiGrading.AnsweredAfter` | internal/service/quiz_grading_service.go:522-564 | What the key has to be for a question to be answerable after the trip, whatever it was before. |
| `QtiGrading.UntrimmedOptionIsLost` | internal/qti/parser_classic.go:766-802 | An option id with spaces around it was right and is wrong after the trip. |
| `QtiGrading.PrefixedBlankGetsAnswered` | internal/qti/parser_classic.go:616-621 | A right option in blank a and a wrong one in blank response_a: nobody could answer the question, and after the trip one can. |
| `QtiGrading.DropdownsDecide` | internal/service/quiz_grading_service.go:522-564 | Against a question that can be answered, equal verdicts on all submissions mean the same blanks with the same accepted options. |
| `QtiGrading.TrimmedDropdownsSurvive` | internal/service/quiz_grading_service.go:522-564 | With trimmed option ids and bare blank ids, dropdown verdicts on every submission survive. |
| `QtiMatchingVerdicts.MatchingVerdictsSurvive` | internal/service/quiz_grading_service.go:800-871 | For every matching question, with or without ids, labels and repeated ids, in either spelling of right ids: verdicts on all submissions survive if and only if each graded pair is read back under its own name with its right id and no pair is read back under a name that is not graded. |
| `QtiMatchingVerdicts.FieldsDecideMatching` | internal/service/quiz_grading_service.go:800-871 | Field by field, for a key whose ids, graded names and right ids each occur once: verdicts survive if and only if every graded entry has an id, no label or its id as label, and a trimmed right id in the right_id spelling. |
| `QtiMatchingVerdicts.MatchIdIsLost` | internal/qti/exporter.go:375-384 | A pair whose right id is spelled match_id changes some verdict. |
| `QtiMatchingVerdicts.PairWithoutIdIsLost` | internal/qti/exporter.go:253-256 | A graded pair without an id, the shape grading documents, loses its right id unless its label is another entry's id, and some verdict changes. |
| `QtiMatchingVerdicts.IdlessPairIsLost` | internal/qti/exporter.go:253-256 | The pair of France and paris is such a question. |
| `QtiMatchingVerdicts.AgreeingPairsSurvive` | internal/qti/parser_classic.go:623-675 | Pairs labelled by their bare ids or not at all, whose entries with one id agree on a trimmed right id, keep their verdicts. |
| `QtiMatchingVerdicts.LabelBreaksMatching` | internal/service/quiz_grading_service.go:800-805 | A question with one left item whose label is not its bare id changes some verdict. |
| `QtiParserClassic.NumericalAnswerFromCondition` | internal/qti/parser_classic.go:546-596 | Decodes a numerical condition: value with margin, precision band, range, or bare value; the margin is computed in float64. |
| `QtiKeyTrip.BoundlessEntry` | internal/qti/parser_classic.go:546-596 | What an exported condition, which has no bounds, is decoded as. |
| `QtiNumerical.MatchIsMeaning` | internal/service/quiz_grading_service.go:341-416 | What an option accepts, from all of its fields: nothing, one literal text, an interval of numbers, or the numbers with given digits. |
| `QtiNumerical.MarginSurvives` | internal/qti/parser_classic.go:549-572 | The imported margin entry accepts the numbers the condition does if and only if the value is the middle of the band and half the band's width, subtracted and halved in float64 and printed, is written exactly; for a band that is empty, if and only if a margin of 0 is written. |
| `QtiNumerical.ExactMarginSurvives` | internal/qti/parser_classic.go:549-572 | Where bounds and width are float64 numbers that print exactly, only the value has to be the middle. |
| `QtiNumerical.DecimalMarginIsLost` | internal/qti/parser_classic.go:549-572 | 0.2 with a margin of 0.1: with the float64 values of 0.1 and 0.3 the margin is written as 0.09999999999999999, and neither end of the band is accepted any more. |
| `QtiNumerical.OffCentreMarginIsLost` | internal/qti/parser_classic.go:549-572 | 0 to 3 around 1 is imported as 1 with a margin of 1.5, and 3 is no longer accepted. |
| `QtiNumerical.PrecisionSurvives` | internal/qti/parser_classic.go:551-563 | The range a precision band is imported as accepts the same numbers if and only if the value is the band's excluded lower end and both ends are written exactly (an empty band: if and only if both ends are written as the value); the code's comment promises this for every band. |
| `QtiNumerical.ExcludedEndIsAccepted` | internal/qti/parser_classic.go:551-563 | 1.5 to two digits, above 1.45 up to 1.55: the import also accepts 1.45. |
| `QtiNumerical.RangeSurvives` | internal/qti/parser_classic.go:574-589 | A range, bare or wrapped, is graded as written if and only if its bounds are in order and are written exactly. |
| `QtiNumberVerdicts.NumericalVerdictsSurvive` | internal/service/quiz_grading_service.go:291-416 | For every list of options: numerical verdicts on all submissions survive if and only if what the positively weighted options accept, by all of their fields, is what their bare texts say (nothing, when the exporter cannot decode the list because a margin or text is a JSON number). |
| `QtiNumberVerdicts.OneAnswerSurvives` | internal/service/quiz_grading_service.go:341-416 | Field by field for one answer: verdicts survive if and only if its type, margin, exact, start, end and precision fields add nothing to its text. |
| `QtiNumberVerdicts.MarginIsLost` | internal/qti/exporter.go:346-359 | 42 with a margin of 0.5 comes back as 42: the submission 42.3 was right and is wrong. |
| `QtiNumberVerdicts.FormulaVerdictsSurvive` | internal/service/quiz_formula.go:221-239 | For every formula item, with a usable configuration or without, and every list of options: the verdicts of all attempts on all submissions, including who gives them, survive if and only if, with a configuration, the bare texts say exactly what each attempt expects, or there is no text and no attempt can be evaluated; and without one, the expected values accept what the bare texts say and there is a text exactly when there is an expected value. |
| `QtiNumberVerdicts.FormulaIsLost` | internal/service/quiz_formula.go:80-90 | A formula item without a text is graded in every attempt whose formula can be evaluated, and has to be scored by hand after the trip, whatever is submitted. |
| `QtiNumberVerdicts.DoubledVariableIsLost` | internal/service/quiz_formula.go:203-219 | x*2 with a tolerance of 0.5, whatever x an attempt shows, is such an item. |
| `QtiNumberVerdicts.TextReplacesFormula` | internal/service/quiz_formula.go:224-239 | With the text 42 beside x*2: where x is 3, the submission 6 was right and is wrong after the trip. |
| `QtiNumberVerdicts.KeyVerdictsSurvive` | internal/service/quiz_grading_service.go:600-638 | Without a configuration: what gradeFormula says of all submissions survives if and only if the expected values accept what the bare texts say and there is a text exactly when there is an expected value. |
| `QtiNumberVerdicts.AnswerValueIsLost` | internal/service/quiz_grading_service.go:609-635 | A formula answer without a configuration and with its value in answer_value only was graded and has to be scored by hand after the trip. |
| `QtiNumberVerdicts.PointsDecide` | internal/service/quiz_grading_service.go:341-416 | Two sets of accepted numbers and literals, one of them without intervals of positive width, give the same verdicts on all submissions if and only if they are equal. |
| `QtiExporter.WriteChoiceLabels` | internal/qti/exporter.go:231-234 | One label per option, in order, with its id and text. |
| `QtiExporter.WriteMatchingLikePresentation` | internal/qti/exporter.go:244-268 | One response per left item in order, named by its id or, without one, its label; pool entries are skipped. |
| `QtiExporter.GroupByBlank` | internal/qti/exporter.go:293-297 | Each blank's options, in their order in the question; the keys are the blank ids. |
| `QtiExporter.WriteDropdownPresentation` | internal/qti/exporter.go:289-316 | One response per blank in ascending order with its own options. |
| `QtiExporter.WriteBlankStrs` | internal/qti/exporter.go:273-287 | One response per blank in ascending order. |
| `QtiExporter.WriteItemPresentation` | internal/qti/exporter.go:202-223 | The interaction elements by question type, or failure when the answers of an option type do not parse. |
| `QtiExporter.WriteItemRespProcessing` | internal/qti/exporter.go:319-412 | One scoring condition per key pair of the question, in order, by question type. |
| `QtiExporter.BuildItem` | internal/qti/exporter.go:157-198 | The whole item: ident, type, points, prompt, interaction, key, feedback. |
| `QtiExporter.IdentsAreApart` | internal/qti/exporter.go:168-171 | Items of different questions have different idents: by id, and without one by position. |
| `QtiExporter.KeyNamesResponses` | internal/qti/exporter.go:319-412 | Every scoring condition of an exported item is for a response the item offers, unless it comes only from a pair without an id or in the pool. |
| `QtiParserClassic.ClassicCorrectIDs` | internal/qti/parser_classic.go:809-837 | The values of all varequals, direct or nested, of scoring conditions for the response or for none. |
| `QtiParserClassic.CollectEquals` | internal/qti/parser_classic.go:841-862 | All varequals of scoring conditions in document order. |
| `QtiParserClassic.BuildChoiceAnswers` | internal/qti/parser_classic.go:419-468 | The labels of the first response in order, weight 100 exactly for the accepted ids. |
| `QtiParserClassic.BuildShortAnswerAnswers` | internal/qti/parser_classic.go:470-484 | One numbered answer per accepted value. |
| `QtiParserClassic.BuildNumericalAnswers` | internal/qti/parser_classic.go:487-543 | The explicit answer of the metadata if it has one, else one numbered answer per decodable scoring condition, with or without bounds. |
| `QtiParserClassic.FindCorrectRight` | internal/qti/parser_classic.go:639-654 | The first non-blank right id the scoring conditions give a left item. |
| `QtiParserClassic.BuildMatchingAnswers` | internal/qti/parser_classic.go:623-675 | The pairs in order, then the pool: each labelled option once, at its first occurrence. |
| `QtiParserClassic.BuildMultipleDropdownAnswers` | internal/qti/parser_classic.go:766-802 | Each response's options in order under its blank id, weight 100 exactly for marked ids. |
| `QtiParserClassic.AddText` | internal/qti/parser_classic.go:691-706 | Adds a trimmed text to a blank's list unless it is blank or already there; the sets beside the lists mirror them. |
| `QtiParserClassic.BuildFillInMultipleBlanksAnswers` | internal/qti/parser_classic.go:681-764 | The accepted texts per blank from labels and scoring varequals, resolving label references. |
| `QtiParserClassic.IndexFeedback` | internal/qti/parser_classic.go:264-273 | Non-empty feedback texts by ident, the last of an ident counting. |
| `QtiParserClassic.ResolveComment` | internal/qti/parser_classic.go:288-320 | A comment from the last link with its role, else from any block with that role, for every visiting order. |
| `QtiParserClassic.BuildClassicAnswers` | internal/qti/parser_classic.go:342-414 | Dispatches on the unified type. |
| `QtiParserClassic.ClassicItemToQuestion` | internal/qti/parser_classic.go:230-334 | Rejects unknown types; otherwise the question the item may be read as. |
| `Text.CollectAndSort` | internal/qti/exporter.go:278-282 | Collecting a map's keys in any order and sorting them gives the one ascending sequence of those keys. |
| `Text.AscendingIsUnique` | internal/qti/exporter.go:278-282 | Two ascending sequences with the same members are equal, so sorting removes the map's iteration order. |
| `Ber.LengthRoundTrip` | internal/auth/ldap.go:668-734 | For every length below 2^32 and any following bytes, decoding the encoding gives the length and its exact octet count; from 2^32 on decoding fails. |
| `Ber.LengthIsShortest` | internal/auth/ldap.go:668-680 | No decodable encoding of a length is shorter than the encoder's (section 8.1.3 of X.690). |
| `Ber.BerEncodeLength` | internal/auth/ldap.go:668-680 | The short form below 128, else the big-endian octets without leading zeros behind their count. |
| `Ber.BerDecodeLength` | internal/auth/ldap.go:718-734 | Reads either form; fails on empty data, indefinite form, more than four octets and truncation. |
| `Ber.DecodeFailsIff` | internal/auth/ldap.go:718-734 | Decoding fails exactly for empty data, the indefinite form, more than four octets and truncation. |
| `Ber.DecodesOctets` | internal/auth/ldap.go:718-734 | Any length that is read, also one with leading zeros, is the number its octets say, the first the highest. |
| `Ber.BerEncode` | internal/auth/ldap.go:682-716 | Tag, length, content. |
| `LdapFraming.Search` | internal/auth/ldap.go:425-459 | Succeeds if and only if some message of the concatenated stream parses to Done, and then returns, in order and one for one, the entries of the messages before the first such one that hold an entry; all other messages are skipped. |
| `LdapFraming.OutcomeAnswers` | internal/auth/ldap.go:445-456 | The same of any sequence of messages, by their indices. |
| `LdapFraming.Drain` | internal/auth/ldap.go:433-457 | The inner loop consumes the complete messages of the buffer and leaves the rest. |
| `LdapFraming.CutResumes` | internal/auth/ldap.go:425-459 | Cutting a stream in two steps, the second starting from what the first left, cuts the same messages as one step. |
| `LdapFraming.ChunkingIsInvisible` | internal/auth/ldap.go:425-459 | Two ways of splitting the same bytes give the same messages, and what is cut from any prefix of the reads is a prefix of them. |
| `LdapFraming.PrefixDecides` | internal/auth/ldap.go:433-457 | Once a prefix of the stream decides the search, more bytes change nothing. |
| `LdapFraming.CutConserves` | internal/auth/ldap.go:433-443 | The messages and the rest are the stream, byte for byte. |
| `LdapFraming.CutSequences` | internal/auth/ldap.go:682-684 | A concatenation of encoded sequences and an incomplete tail is cut back into exactly those sequences and that tail. |
| `LdapFilter.EncodeFilter` | internal/auth/ldap.go:738-785 | Computes the compiled filter for every byte string and terminates on every one. |
| `LdapFilter.EncodeCompoundFilter` | internal/auth/ldap.go:788-819 | The tagged concatenation of the children found by the parenthesis scan, stopping at the first that is not one. |
| `LdapFilter.EncodeSubstringFilter` | internal/auth/ldap.go:822-847 | Initial, any and final parts by position; empty parts are skipped. |
| `LdapFilter.FindClosing` | internal/auth/ldap.go:796-808 | The end of the prefix that closes its parentheses, 0 if none does. |
| `LdapCompiler.FilterIsCompiled` | internal/auth/ldap.go:738-847 | For every well-formed filter tree, with any blanks around it and between its children, the compiler turns its text (section 3 of RFC 4515) into exactly the compositional encoding of the tree (section 4.5.1 of RFC 4511); also where a leaf at the top or after an exclamation mark lacks its parentheses. |
| `LdapFilterTrees.NakedIsCompiled` | internal/auth/ldap.go:738-791 | A leaf without parentheses is sent with its name trimmed on the left and what comes last in its value trimmed on the right, by any white space of Unicode. |
| `LdapOddFilters.BlankAsksForAll` | internal/auth/ldap.go:739-743 | A blank filter asks for presence of objectClass. |
| `LdapOddFilters.NameAloneAsksPresence` | internal/auth/ldap.go:762-767 | A name without an equals sign asks for its presence, with or without parentheses. |
| `LdapOddFilters.JunkIsDropped` | internal/auth/ldap.go:788-819 | A compound filter whose list goes on with a text that opens no parenthesis, or does not close it, is compiled as if the list ended there. |
| `LdapFilterTrees.WrittenPasses` | internal/auth/ldap.go:796-808 | The parenthesis scan closes a written filter exactly at its own last parenthesis. |
| `LdapFilterTrees.PatternSplits` | internal/auth/ldap.go:822-823 | Splitting a written substring pattern at its stars gives its pieces. |
| `LdapEscape.EscapeFilter` | internal/auth/ldap.go:643-662 | Escapes rune by rune; a byte that starts no valid rune becomes U+FFFD. |
| `LdapEscape.EscapeRoundTrip` | internal/auth/ldap.go:643-662 | Unescaping (section 3 of RFC 4515) an escaped username gives it back if and only if it is valid UTF-8. |
| `LdapEscape.EscapedIsInert` | internal/auth/ldap.go:643-662 | Escaped text has no star, parenthesis or NUL, and is empty only for the empty username. |
| `LdapEscape.SentAsTyped` | internal/auth/ldap.go:738-785 | The compiler does not unescape, so the directory is asked for the username itself if and only if it is valid UTF-8 without special characters. |
| `LdapTemplates.TemplateIsCompiled` | internal/auth/ldap.go:156-161 | For every template with its holes on the value side, its leaves in parentheses or not, and every username, empty or not, the searched filter compiles to the template's tree with the escaped name in its holes. |
| `LdapTemplates.NameKeepsShapeIff` | internal/auth/ldap.go:156-161 | For every such template and any two non-empty usernames: whatever tree the sent bytes are read as has the shape of the template filled with the other name, if and only if the template has no leaf without parentheses whose last piece is white space but for its holes, or both names or neither are white space. |
| `LdapTemplates.BlankNameAsksPresence` | internal/auth/ldap.go:739 | In attr=*%s a username of blanks is trimmed away: the filter asks for presence, and any other name gives another shape. |
| `LdapBlanks.FilledIsBlank` | internal/auth/ldap.go:739 | A filled text is white space if and only if the text is but for its holes, and the username if there are any. |
| `LdapTemplates.EscapedNameIsInert` | internal/auth/ldap.go:156-161 | So for a template written with all its parentheses, as the default one is, no non-empty username changes the shape. |
| `LdapEncodings.EncodingIsUnique` | internal/auth/ldap.go:738-847 | Two filter trees have the same encoding if and only if they differ only in blanks, empty pieces between stars and the two ways to write presence. |
| `LdapEncodings.EncodingPrefix` | internal/auth/ldap.go:738-847 | No encoding is a proper prefix of another: an encoded filter followed by anything determines the filter and what follows. |
| `LdapTemplates.EmptyNameKeepsShapeIff` | internal/auth/ldap.go:772-787 | The contract of BuildOutcome for an empty username, which the HTTP handler refuses: it keeps the template's shape if and only if no piece of a substring pattern is lost, so not in (uid=*%s), but in the default (uid=%s), where it asks for an empty value. |
| `LdapFilling.FilledWhole` | internal/auth/ldap.go:161 | Replacing the hole in a template's text is replacing it in the values of its tree. |
| `GraphQLInverse.ParseInvertsPrint` | internal/graphql/schema.go:47-355 | Every legal document, printed with any legal filler between its tokens and anything after its last brace, parses to the tree that was printed. |
| `GraphQLAcceptance.AcceptedIff` | internal/graphql/schema.go:47-355 | For every input: parsing succeeds if and only if the input is the text of a legal document with anything after its last brace. |
| `GraphQLAcceptance.AcceptedIsPrinted` | internal/graphql/schema.go:47-355 | Whatever is accepted is such a text, and the fields returned are the document's tree. |
| `GraphQLPrinter.IntIsParsed` | internal/graphql/schema.go:272-307 | An integer written in decimal, with any leading zeros and sign, is read as that integer if it fits into 64 bits and is an error otherwise. |
| `GraphQLInverse.ArgumentsAreParsed` | internal/graphql/schema.go:139-184 | Printed arguments are read back as a map in which the last of several values for a name counts. |
| `GraphQLInverse.SelectionIsParsed` | internal/graphql/schema.go:105-137 | A printed field is read back up to the text that follows it. |
| `GraphQLInverse.BodyIsFound` | internal/graphql/schema.go:51-67 | Keyword, operation name and variable definitions are skipped up to the selection set. |
| `GraphQLPrinter.LiteralIsParsed` | internal/graphql/schema.go:186-307 | Every legal literal is read back as its value, up to a text that does not continue it; integers are written in decimal from the number, escapes by what they stand for. |
| `GraphQLPrinter.FillerIsSkipped` | internal/graphql/schema.go:324-335 | Legal filler before a token is skipped, all of it and nothing more. |
| `GraphQLPrinter.PiecesAreRead` | internal/graphql/schema.go:236-270 | Plain characters, newlines, tabs, escaped quotes and backslashes are read back as themselves; any other escaped character keeps its backslash. |
| `GraphQLPrinter.AsciiIsSane` | internal/graphql/schema.go:309-315 | The assumptions on character classes hold for the ASCII letters and digits. |
| `GraphQLParser.ParseQuery` | internal/graphql/schema.go:47-77 | Terminates on every input with the outcome of the specification. |
| `GraphQLParser.Parser.ParseSelectionSet` | internal/graphql/schema.go:79-103 | Agrees with the specification; the cursor only moves forward and stays in bounds. |
| `GraphQLParser.Parser.ParseField` | internal/graphql/schema.go:105-137 | Agrees with the specification; the cursor only moves forward and stays in bounds. |
| `GraphQLParser.Parser.ParseArguments` | internal/graphql/schema.go:139-184 | Agrees with the specification; the cursor only moves forward and stays in bounds. |
| `GraphQLParser.Parser.ParseValue` | internal/graphql/schema.go:186-234 | Agrees with the specification; the cursor only moves forward and stays in bounds. |
| `GraphQLParser.Parser.ParseString` | internal/graphql/schema.go:236-270 | Agrees with the specification; the cursor only moves forward and stays in bounds. |
| `GraphQLParser.Parser.ParseNumber` | internal/graphql/schema.go:272-307 | Agrees with the specification; the cursor only moves forward and stays in bounds. |
| `GraphQLParser.Parser.SkipFiller` | internal/graphql/schema.go:324-335 | Skips blanks and comments by loop and recursion to the specified place. |
| `GraphQLParser.Parser.SkipParenthesized` | internal/graphql/schema.go:337-355 | Skips a balanced parenthesis, or to the end of the input. |
| `EditDistance.Levenshtein` | cmd/stalecols/main.go:326-354 | The two swapped row arrays compute the recurrence of the edit distance. |
| `EditDistance.FillRow` | cmd/stalecols/main.go:343-350 | One pass turns the row of a prefix into the row of the prefix one byte longer. |
| `EditDistance.DistIsLeast` | cmd/stalecols/main.go:324-354 | The distance is the least length of any sequence of single-byte inserts, deletes and substitutions from one string to the other, and is reached. |
| `EditDistance.Triangle` | cmd/stalecols/main.go:324-354 | Triangle inequality. |
| `EditDistance.Symmetric` | cmd/stalecols/main.go:324-354 | Symmetry. |
| `EditDistance.ZeroMeansSame` | cmd/stalecols/main.go:327-329 | The distance is 0 exactly for equal strings. |
| `EditDistance.Bounds` | cmd/stalecols/main.go:324-354 | At least the difference of the lengths and at most the longer length. |
| `StaleColumns.FindRenameTarget` | cmd/stalecols/main.go:287-318 | The first column at normalised distance 0, else the first at distance 1 when the longer name has 8 bytes, else none; none for names under 4 bytes. |
| `StaleColumns.TargetIsUnique` | cmd/stalecols/main.go:287-318 | That determines the outcome. |
| `StaleColumns.TargetIsNearest` | cmd/stalecols/main.go:287-318 | What is found is plausible, at the least distance of all columns, and the first at that distance. |
| `StaleColumns.ShortNameHasNoTarget` | cmd/stalecols/main.go:288-291 | A wanted name under four bytes is never matched. |
| `StaleColumns.PlausibleColumnMissed` | cmd/stalecols/main.go:273-318 | A column the documented rule accepts is missed if and only if the wanted name has seven bytes, no column is at distance 0, and the first column at distance 1 is shorter than another one of eight bytes. |
| `StaleColumns.LongColumnIsMissed` | cmd/stalecols/main.go:273-318 | abcdefg with the columns abcdef and abcdefgh is such a case. |
| `MfaRateLimit.MFAAttemptTracker.CheckAndIncrement` | internal/auth/mfa_rate_limit.go:107-125 | Allows and counts the attempt below the token's cap, refuses at it. |
| `MfaRateLimit.MFAAttemptTracker.CheckAndIncrementUser` | internal/auth/mfa_rate_limit.go:139-162 | Rolls an elapsed window forward, then allows and counts below the account's cap. |
| `MfaRateLimit.MFAAttemptTracker.Reset` | internal/auth/mfa_rate_limit.go:164-170 | Forgets the token's record and nothing else. |
| `MfaRateLimit.MFAAttemptTracker.Sweep` | internal/auth/mfa_rate_limit.go:174-202 | Evicts exactly the outdated records of both maps. |
| `MfaRateLimit.NthCheckIsAllowedIff` | internal/auth/mfa_rate_limit.go:107-125 | In every run, the n-th verify check of a token since its record was created is allowed if and only if n is at most 5, and the n-th recovery check if and only if n is at most 3; a reset, or a sweep more than six minutes after the first check, starts the count again. |
| `MfaRateLimit.NthAccountCheckIsAllowedIff` | internal/auth/mfa_rate_limit.go:139-162 | In every run, the n-th verify check of a user in a window of 15 minutes is allowed if and only if n is at most 15, and the n-th recovery check if and only if n is at most 6; the first check after the window opens the next. |
| `MfaRateLimit.SweepsAreInvisible` | internal/auth/mfa_rate_limit.go:189-200 | In every run with a monotone clock, each account check is answered as if nothing had ever been swept. |
| `MfaRateLimit.AtMostTwiceTheCap` | internal/auth/mfa_rate_limit.go:46-57 | In every run, any half-open 15-minute interval holds at most 30 successful verify and 12 successful recovery checks of one user, whatever tokens are minted or reset. |
| `MfaRateLimit.CapHoldsWithoutRenewal` | internal/auth/mfa_rate_limit.go:46-57 | In every run, an interval of 15 minutes in which no check renews the user's window after a success holds at most the documented 15 verify and 6 recovery successes. |
| `MfaRateLimit.CapExceededIffRenewedInside` | internal/auth/mfa_rate_limit.go:46-57 | Runs whose window is renewed at time r only can exceed the cap in an interval if and only if r lies strictly inside it; they then reach twice the cap. |
| `MfaAccountRace.AtMostTwiceTheCapPerLateDeletion` | internal/auth/mfa_rate_limit.go:139-200 | With load, locked check, sweep test and sweep delete as separate steps, in every interleaving, any half-open 15-minute interval holds at most 30 successful verify and 12 successful recovery checks of a user, and as many again for each late deletion: one of a record whose window is not over, or while a check of the user is under way. All other deletions cost nothing. |
| `MfaAccountRace.LateDeletionGivesThirdBudget` | internal/auth/mfa_rate_limit.go:189-200 | A run with 45 verify checks of a user within 15 minutes: the sweeper deletes a record that was rolled forward after its test. |
| `MfaAccountSteps.StepKeepsBudget` | internal/auth/mfa_rate_limit.go:139-200 | Every step keeps each budget of a user, which a late deletion alone adds to, within two windows of successes. |
| `MfaAccountRace.UninterruptedCheckIsAtomic` | internal/auth/mfa_rate_limit.go:139-162 | The separate steps of an account check, run without interruption, answer and store what the tracker's check does. |
| `MfaTokenRace.AtMostCapWhileValid` | internal/auth/mfa_rate_limit.go:107-188 | With load, locked increment, sweep test and sweep delete as separate steps, in every interleaving, at most 5 verify and 3 recovery checks succeed on a token while it is valid, and as many again for each reset of it. |
| `MfaTokenSteps.StepKeepsCap` | internal/auth/mfa_rate_limit.go:107-188 | Every step of every thread and of the sweeper keeps the cap's invariant. |
| `MfaTokenSteps.DeleteKeepsCap` | internal/auth/mfa_rate_limit.go:178-188 | A pending deletion only ever concerns a token that has expired. |
| `MfaTokenRace.ResetsLiftTheCap` | internal/auth/mfa_rate_limit.go:164-170 | For every number of resets a run that reaches that bound. |
| `MfaTokenRace.UninterruptedCheckIsAtomic` | internal/auth/mfa_rate_limit.go:107-125 | The same of a token check. |
| `ReplayCache.SAMLReplayCache.CheckAndStore` | internal/auth/saml_replay_cache.go:53-65 | Accepts and stores an id that is not empty and has no expiry ahead; refuses and keeps the map otherwise. |
| `ReplayCache.SAMLReplayCache.Purge` | internal/auth/saml_replay_cache.go:67-78 | Removes exactly the expired entries. |
| `ReplayCache.PurgeIsExact` | internal/auth/saml_replay_cache.go:67-78 | In every run, a purge drops exactly the ids whose expiry has passed. |
| `ReplayCache.PurgesAreInvisible` | internal/auth/saml_replay_cache.go:53-78 | In every run with a monotone clock, purges anywhere change no answer. |
| `ReplayCache.AcceptedOnce` | internal/auth/saml_replay_cache.go:44-65 | In every run, an id is accepted if and only if it is not empty and no earlier acceptance of it has an expiry still ahead. |
| `Scheduler.Scheduler.constructor` | internal/scheduler/scheduler.go:63-73 | A non-positive interval becomes one hour. |
| `Scheduler.Scheduler.Register` | internal/scheduler/scheduler.go:75-78 | Appends the job. |
| `Scheduler.Scheduler.Tick` | internal/scheduler/scheduler.go:138-175 | Attempts the due jobs in order, skipping a name attempted within half an interval, and records each attempt. |
| `Scheduler.AttemptsAreSpaced` | internal/scheduler/scheduler.go:144-151 | Over any ticks, even with a clock that jumps, two attempts of one name on a pod are at least half an interval apart. |
| `Scheduler.DueJobIsAttempted` | internal/scheduler/scheduler.go:138-151 | A due job's name is attempted in a tick if and only if it was not attempted within half an interval before. |
| `Scheduler.NameIsAttemptedIff` | internal/scheduler/scheduler.go:138-151 | A tick attempts a name if and only if some registered job of that name is due and the name was not attempted within half an interval before; once each, at the time the tick read. |
| `Scheduler.AttemptsInOrder` | internal/scheduler/scheduler.go:138-151 | The attempts of a tick are those of due jobs in the order of their registration. |
| `LeaderLock.MutualExclusion` | internal/scheduler/pg_leader_lock.go:28-69 | For any number of pods and scheduler loops on their pools, any interleaving, crashes, failed unlocks, lost sessions and any hash: two loops are inside jobs with the same key only if one of them lost its session since its job started. |
| `LeaderLock.OverlapIff` | internal/scheduler/pg_leader_lock.go:28-69 | In every run, two loops are ever inside jobs with one key if and only if a try for a key is granted while a loop that lost its session since its job started still runs under it. |
| `LeaderLock.HeldUnlessLost` | internal/scheduler/pg_leader_lock.go:40-69 | In every run, a running loop's session holds its key if and only if it has not been lost since the job started. |
| `LeaderLock.LostSessionLetsAnotherIn` | internal/scheduler/pg_leader_lock.go:40-46 | A run in which the database loses the session of a running job and a loop of another pod enters the same job and window. |
| `LeaderLock.SkipMeansLeaderElsewhere` | internal/scheduler/pg_leader_lock.go:55-60 | Unless an unlock failed, a loop skips only while another loop runs or releases a claim with the same key and holds it. |
| `LeaderLock.NoLeakWithoutFailure` | internal/scheduler/pg_leader_lock.go:61-63 | A lock is only ever left behind by an unlock that failed. |
| `LeaderLock.StartsAreAccounted` | internal/scheduler/pg_leader_lock.go:28-69 | In every run, the jobs started under a key are the times its lock was freed, plus the starts on a session that still held it, plus one while it is held. |
| `LeaderLock.WhoFrees` | internal/scheduler/pg_leader_lock.go:61-63 | A lock is freed exactly by the last unlock of the session that holds it, the death of its pod, or the loss of the session. |
| `LeaderLock.UnlockFreesIff` | internal/scheduler/pg_leader_lock.go:61-63 | In every run, an unlock by the holder frees a lock if and only if that makes the unlocks since it was free as many as the starts. |
| `LeaderLock.KeysAreApart` | internal/scheduler/pg_leader_lock.go:39 | With a hash that tells texts apart, two jobs and windows have one key if and only if they are the same. |
| `LeaderLock.OneStartPerRelease` | internal/scheduler/pg_leader_lock.go:28-69 | Unless an unlock failed, a key's jobs are at most one more than the times its lock was freed. |
| `LeaderLock.TwiceIffGrantedAgain` | internal/scheduler/pg_leader_lock.go:28-69 | In every run, two jobs are started under a key if and only if a try for it is granted after its lock was freed or on a session still holding it. |
| `LeaderLock.WindowCanRunTwice` | internal/scheduler/pg_leader_lock.go:61-69 | A run in which two loops run the same job for the same window one after the other. |
| `LoginPipeline.LoginPipeline.Execute` | internal/auth/login_pipeline.go:162-291 | The stores after the call and the token or error it returns. |
| `LoginPipeline.LoginPipeline.ResolveUser` | internal/auth/login_pipeline.go:295-460 | The stores after resolution and the user or error. |
| `LoginPipeline.LoginPipeline.ResolveFederated` | internal/auth/login_pipeline.go:348-460 | Binding, then admin-created login, then verified email, then provisioning. |
| `LoginPipeline.LoginPipeline.ResolveProviderLogin` | internal/auth/login_pipeline_logins.go:18-66 | The login named by the subject, else by login_id; binds the subject unless it is empty. |
| `LoginPipeline.LoginPipeline.LinkByEmail` | internal/auth/login_pipeline.go:393-413 | Links the account's user with the verified email, never a super_admin. |
| `LoginPipeline.LoginPipeline.Provision` | internal/auth/login_pipeline.go:415-459 | Creates the user, then binds it; a failed binding leaves the user behind. |
| `LoginRuns.TokensStayInTheAccount` | internal/auth/login_pipeline.go:162-460 | Whatever the store, a login gets a token only for a stored user who is neither suspended nor waiting for consent; a federated one only through an active provider of the credential's type, for a user of the provider's account, and for a super_admin only by a binding already there. |
| `LoginRuns.WhichToken` | internal/auth/login_pipeline.go:193-286 | Which of the three tokens a successful login gets, and when the session is marked for enrollment, as an if-and-only-if in terms of user, policy and credential. |
| `LoginRuns.LoginsOnlyAdd` | internal/auth/login_pipeline.go:293-460 | A login changes no user's row and no binding; new users are plain users and new bindings never a super_admin's. |
| `LoginRuns.NoFederatedSuperAdmin` | internal/auth/login_pipeline.go:83-91 | From a store where no super_admin is bound, no federated login of any run gives a super_admin a token, as long as no bound user is promoted along the way. |
| `LoginRuns.PromotedUserGetsIn` | internal/auth/login_pipeline.go:348-375 | A run in which a bound user is promoted and the next federated login is answered with a super_admin's token. |
| `LoginRuns.OneUserPerSubject` | internal/auth/login_pipeline.go:348-375 | Two successful logins of a run with the same provider and subject are the same user's, and the second provisioned nobody. |
| `LoginRuns.BoundLoginIff` | internal/auth/login_pipeline.go:348-375 | When nothing fails, a bound subject signs in if and only if its user is stored in the provider's account and passes the two gates. |
| `LoginResolution.WhoIsResolved` | internal/auth/login_pipeline.go:376-459 | When nothing fails and the subject is not bound, which user a federated login resolves to, as an if-and-only-if over the stored rows: the user of the subject's login, or else of the login of login_id, if stored; then the account's user with the verified address; then a new one. |
| `LoginResolution.WhyNobodyIsResolved` | internal/auth/login_pipeline.go:376-459 | And exactly when each refusal is returned instead. |
| `LoginResolution.BoundIsRefusedIff` | internal/auth/login_pipeline.go:348-375 | A bound subject is refused exactly when its user is gone or belongs to another account. |
| `LoginResolution.NamedUserIsResolved` | internal/auth/login_pipeline.go:295-320 | A local, passkey or session credential resolves to the user it names if that user is stored, and changes nothing. |
| `LoginResolution.UntrustedIsRefused` | internal/auth/login_pipeline.go:321-346 | Which error a provider that is missing, unknown, of another type or not active gives; nothing is stored. |
| `LoginResolution.TokenIff` | internal/auth/login_pipeline.go:162-291 | A resolved user gets a token exactly when neither suspended nor waiting for consent and the issuer does not fail; a refusal is passed on. |
| `LoginRuns.TrustedMeansChecked` | internal/auth/login_pipeline.go:321-346 | The provider check passes exactly for an existing provider of the credential's type that is neither deleted nor disabled. |
| `LoginRuns.ResolvingBinds` | internal/auth/login_pipeline.go:348-460 | Resolving a subject by whatever route leaves it bound to the resolved user, and a user is only created for a subject not bound before. |
| `LoginRuns.OrphanIff` | internal/auth/login_pipeline.go:443-456 | A login leaves a user nobody can sign in as if and only if it provisions and the second write fails, which it does when the database refuses it or the subject is empty and already taken. |

## Left out

- XML, CDATA, JSON and zip text, and the printing and parsing of numbers: items are trees and answers decoded values; points survive `%g` and `ParseFloat` exactly. Answers whose JSON decodes only in part count as `Undecodable`, except maps of blanks (`PartialBlanks`), and columns that grading cannot decode and the exporter can are not modelled otherwise.
- The choice of a condition's score among its setvar elements (`internal/qti/parser_classic.go:867-878`): a condition carries its score.
- Calculated-question blocks (`internal/qti/calculated.go`) and the New Quizzes dialect.
- QtiParserClassic.ResolveComment: resolves the three comments in one pass each, where the source fills them together; the result is the same set of outcomes.
- QtiNumerical.MarginSurvives: float64 rounding, printing and the two number readers are parameters; infinities and NaN, which the importer reads as bounds, are not numbers of the model.
- QtiNumberVerdicts.NumericalVerdictsSurvive: assumes that between any two numbers another can be typed, and that a key by significant digits accepts no number or more than finitely many; how it compares digits is a parameter.
- QtiNumberVerdicts.FormulaVerdictsSurvive: the variable values of an attempt and the evaluation of the formula or the precomputed answers are a parameter, the answer an attempt expects if it expects one; infinite answers are not numbers of the model. The assumptions on numbers are those of `NumericalVerdictsSurvive`.
- Verdicts of ordering, categorization and hot spot questions, which come back as other types.
- Scores and partial credit: verdicts are correct or not.
- LdapFraming.Search: what one message means is a parameter; the socket, deadlines, bind and TLS are not modelled.
- LdapCompiler.FilterIsCompiled: attributes without `=` or parentheses and values without parentheses, as the grammar has them, and ASCII blanks between filters only. Values are taken verbatim, as the code does, so a tree whose values hold backslashes is not read as RFC 4515 escapes. Blank texts, names without `=` and lists with junk in them are in `LdapOddFilters`; compound filters without parentheses and nested junk are outside, and what the compiler makes of them is `CompiledFilter`, which is total.
- LdapTemplates.NameKeepsShapeIff: filters up to 2^63 - 1 bytes, the longest Go can hold.
- GraphQLInverse.ParseInvertsPrint: assumes that the library's letters and digits include ASCII's and exclude white space and punctuation; the conversion of decimal text to a float is a parameter.
- MfaRateLimit.SweepsAreInvisible: each account check is one atomic step with one clock reading; `MfaAccountSteps` has the separate steps, where what runs under a record's lock reads the clock once.
- MfaTokenRace: token signing and parsing; a token is an identifier issued at a time.
- Scheduler: Start and Stop, the hour and weekday predicates (any predicate is allowed) and logging.
- LeaderLock: the branch without a database, which runs unconditionally, and the pool's limit on connections.
- LoginPipeline: audit events, claims snapshots, display names and placeholder passwords; users, providers, logins and policies are maps, and every call that can fail has an outcome in `Env`.
- New bindings and users written by other parts of the program: a run holds logins and arbitrary edits of the user table.
- Pagination, accommodation maxima, scope matching, GraphQL resolvers and HTTP handlers: they would only add easy members.
