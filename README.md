# Response judging of the agent benchmark scripts

This project models, in Dafny, the part of three Python evaluation scripts
that decides whether a language model's answer is right, and the loops that
count those verdicts. The three scripts are:

- `berkeley_evaluation.py`, for the Berkeley function-calling leaderboard.
  It holds `parse_function_call`, `evaluate_function_call` and the
  irrelevance test. It also holds `test_generic`, the loop over one
  category, and the totals taken over all categories.
- `agentbench_evaluation.py`, for AgentBench. It holds `judge_answer`, which
  picks one heuristic judge per task tag ("sql", "kg", "math", "mcq", "os"),
  and the four runner loops that call it.
- `test_3_simple_agents.py`. It holds the lateral-thinking runner, the
  math-answer extractor with its three patterns and fallback, the
  multiple-choice letter extractor, and their runners.

Calling the model is not modelled. A runner receives one `Generation`
record per problem, in order, holding the success flag, the response text
and the error. `json.loads` is a parameter (`Decoder`): a function from an
object's text to the map it decodes to, or `None` where it raises. The
regular expressions are written as scanners over characters. Every search
is proved to return the leftmost match, and every `findall(...)[-1]` the
last of the non-overlapping `finditer` matches. The number scanners are also proved
to take the greedy or backtracking match the regex engine would take, and to
miss no token (`AgentBench.NumberTokenLongest`, `SimpleAgents.SignedNumberFound`). The
JSON, call and keyword patterns are specified piece by piece, with lemmas
that each piece matches where it should (`FunctionCalls.ObjectAtIs`,
`FunctionCalls.DottedNameEndIs`, `FunctionCalls.KeywordAtIs`) and round
trips over written calls, blanks before the closing brace included. Floats
are exact decimals (`mantissa / 10^scale`).

Modules, one per file:

- `Options`: the `Option` type.
- `Text`: ASCII character classes, case mapping, `in`, `endswith`,
  `strip`, `split`, `\b` and leftmost search.
- `Numerals`: `int()`, `float()` and `str()` on plain numerals.
- `Values`: Python scalars with `==`, `in`, `str()`, truthiness and the
  argument coercion.
- `Scores`: the generation record, counting and the rate formula.
- `FunctionCalls`: `parse_function_call`.
- `CallJudge`: `evaluate_function_call` and the irrelevance test.
- `BerkeleyRunner`: `test_generic` and the aggregates.
- `AgentBench`: `judge_answer` and its runner.
- `SimpleAgents`: the three simple agents.

Behaviours of the code worth knowing:

- **Function names.** A name matches when it ends with the expected name
  as plain text (`str.endswith`), not only as a dotted suffix.
  `CallJudge.QualifiedNameMatches` holds for any prefix.
- **AgentBench multiple choice.** The first isolated letter a-d decides,
  so the letter's position matters: an opening article "a" is read as A
  (`AgentBench.McqArticleFirst`).
- **AgentBench math.** A falsy expected answer (0) is never matched. Signs
  are not part of a number token, so the number read is never negative. A
  negative integer answer, or any expected value of -0.01 or less, is
  therefore never judged right (`AgentBench.AlwaysWrong`,
  `AgentBench.MathReadsLastNumberUnsigned`, `AgentBench.MathNegativeNeverRight`).
  An expected value between -0.01 and 0 can still be matched: "0" is right
  for -0.005 (`AgentBench.MathNearZeroNegative`).
- **Error text in records.** The AgentBench and Berkeley runners do not
  record the error text. The simple agents do.

## Model

| member | source | states |
|---|---|---|
| Text.Leftmost | berkeley_evaluation.py:126 | `re.search`: the first start position from which a match succeeds, and no match before it; None only when no position matches |
| Text.StripMeaning | berkeley_evaluation.py:148 | `strip()` keeps a stretch of the text that neither begins nor ends with a stripped character, with only stripped characters dropped before and after it |
| Text.Strip | berkeley_evaluation.py:148 | `strip()` never lengthens the text, and what it keeps neither begins nor ends with a stripped character |
| Text.Words | agentbench_evaluation.py:80 | `split()`: every word it yields is non-empty and holds no blank |
| Text.WordsCover | agentbench_evaluation.py:80 | the words `split()` yields, joined, are exactly the non-blank characters of the text, in order |
| Text.WordsStandAlone | agentbench_evaluation.py:80 | every word stands in the text with a blank or an end of the text on either side |
| Text.FirstIsolated | agentbench_evaluation.py:103 | `\b([a-d])\b` with `.group(1)`: the letter found is the character at the leftmost position where an isolated letter of the range stands, with none before it; nothing is found exactly when no isolated letter of the range occurs |
| Text.ContainsLowered | agentbench_evaluation.py:74-80 | a substring of the response is still a substring after both are lower-cased |
| Numerals.ParseInt | berkeley_evaluation.py:150 | plain digits read as their value; a blank text is rejected |
| Numerals.ParseFloat | berkeley_evaluation.py:153 | plain digits read as a whole float; a blank text is rejected |
| Numerals.NatTextRoundTrip | berkeley_evaluation.py:150 | reading back the digits `str(n)` writes gives `n` |
| Numerals.IntTextRoundTrip | berkeley_evaluation.py:150 | `int(str(i)) == i` for every integer |
| Numerals.IntIsFloat | berkeley_evaluation.py:149-153 | every text `int()` accepts, `float()` accepts too, with the same value |
| Numerals.UnsignedFloat | agentbench_evaluation.py:95 | digits with at most one point, unsigned and unpadded, read as a float that is not negative |
| Numerals.FloatRepr | berkeley_evaluation.py:175 | `str()` of a float is non-empty, holds a point, and starts with `-` exactly for a negative value |
| Numerals.FloatReprWhole | berkeley_evaluation.py:175 | `str()` of a whole float is the integer's text followed by `.0` |
| Values.PyEq | berkeley_evaluation.py:175 | `==` holds between equal values, and between a string or None and something else only when they are the same value |
| Values.PyIn | berkeley_evaluation.py:175 | `in`: a member is found; nothing is in an empty list; for a string or None, found iff it is a member |
| Values.Str | berkeley_evaluation.py:175 | `str()` is empty only for the empty string; an integer's text reads back as it; a float's text holds a point |
| Values.Truthy | agentbench_evaluation.py:93 | a number is truthy iff it is not zero, a string iff its text is non-empty, and None never |
| Values.WholeFloatEqualsInt | berkeley_evaluation.py:175 | the integer n and the float n.0 are `==`, yet their `str()` differ |
| Values.Unquote | berkeley_evaluation.py:148 | `strip().strip('"\'')` never lengthens the text and leaves no quote at either end |
| Values.Coerce | berkeley_evaluation.py:148-156 | the value is an integer when `int()` accepts the text, else a float when `float()` does, else the text itself |
| Values.StripOneQuote | berkeley_evaluation.py:148 | `strip('"\'')` removes exactly one pair of quotes from a text that has none at its own ends |
| Values.UnquoteInteger | berkeley_evaluation.py:148 | stripping blanks and quotes from an integer's text, quoted or not, gives that text back |
| Values.CoerceInteger | berkeley_evaluation.py:148-155 | an integer written out, quoted or not, coerces to that integer, not to a float or a string |
| Values.CoerceText | berkeley_evaluation.py:148-156 | a value that is no numeral and has no blanks or quotes at its ends stays that string |
| Scores.Count | berkeley_evaluation.py:490-491 | the number of verdicts counted is at most their number, and equals it exactly when every verdict is true |
| Scores.Flags | berkeley_evaluation.py:490-491 | one flag per record, in order |
| Scores.CountAppend | berkeley_evaluation.py:490-491 | appending a record adds one to the count exactly when its flag is set |
| Scores.CountMonotone | test_3_simple_agents.py:233-264 | where one list of verdicts implies another, the first counts no more than the second |
| Scores.Rate | berkeley_evaluation.py:510 | `count / total * 100` with the zero guard: 0 for no data, otherwise the rate times the total is 100 times the count |
| Scores.RateBounds | berkeley_evaluation.py:510 | `count / total * 100` with the zero guard is a percentage, and it is 100 exactly when everything counted |
| FunctionCalls.Token | berkeley_evaluation.py:125 | `lit\s*` at a position: the literal, then the end of the blanks after it |
| FunctionCalls.QuotedNameAt | berkeley_evaluation.py:125 | `"([^"]+)"\s*,\s*`: the captured name is non-empty and holds no `"` |
| FunctionCalls.JsonNameAt | berkeley_evaluation.py:125 | the first half of the JSON pattern starts at `{` and captures a non-empty name without quotes |
| FunctionCalls.ObjectAt | berkeley_evaluation.py:125 | `(\{[^{}]*\})\s*\}` captures a brace-delimited object with no braces inside, followed by blanks and a closing brace |
| FunctionCalls.ObjectAtIs | berkeley_evaluation.py:125 | completeness: a flat object followed by blanks and `}` is captured, exactly that object |
| FunctionCalls.JsonArgumentsAt | berkeley_evaluation.py:125 | the `"arguments"` half of the pattern starts at the `"arguments"` key and captures a flat object that stands in the text before blanks and `}` |
| FunctionCalls.JsonAt | berkeley_evaluation.py:125 | a match of the JSON pattern starts at `{`, with a quoted name and a flat argument object followed by blanks and `}` |
| FunctionCalls.SearchJson | berkeley_evaluation.py:125-126 | the leftmost JSON match, with no match at any earlier position; None only when no position matches |
| FunctionCalls.DottedNameChars | berkeley_evaluation.py:137 | a dotted name holds only word characters and dots |
| FunctionCalls.DottedNameInner | berkeley_evaluation.py:137 | inside a dotted name every dot is followed by a word character |
| FunctionCalls.DottedNameJoin | berkeley_evaluation.py:137 | a word, a dot and a dotted name make a dotted name |
| FunctionCalls.DottedNameEnd | berkeley_evaluation.py:137 | the greedy `\w+(?:\.\w+)*`: a dotted name that nothing after it could extend |
| FunctionCalls.DottedNameEndIs | berkeley_evaluation.py:137 | the greedy match ends at `j` when the text up to `j` is a dotted name and nothing extends it |
| FunctionCalls.CallAt | berkeley_evaluation.py:137 | a match of the call pattern captures a dotted name standing at the position and argument text without `)` |
| FunctionCalls.SearchCall | berkeley_evaluation.py:137-138 | the leftmost call-pattern match, with no match before it; None only when none exists |
| FunctionCalls.KeywordAt | berkeley_evaluation.py:145 | `(\w+)\s*=\s*([^,]+)` captures a word as key and a non-empty value without commas |
| FunctionCalls.ValueAfter | berkeley_evaluation.py:145 | the value after `=`: blanks skipped, then a non-empty run without commas |
| FunctionCalls.ValueAfterIs | berkeley_evaluation.py:145 | with no blank after `=`, the value is the run up to the next comma |
| FunctionCalls.KeywordAtIs | berkeley_evaluation.py:145 | the keyword match given the ends of its key, its blanks and its value |
| FunctionCalls.SearchKeyword | berkeley_evaluation.py:146 | the leftmost keyword match from a position on, with none before it |
| FunctionCalls.SearchKeywordSkip | berkeley_evaluation.py:146 | positions where no keyword match starts can be skipped without changing the search |
| FunctionCalls.KeywordMatches | berkeley_evaluation.py:146 | `finditer`: every match yields a word key and a non-empty value |
| FunctionCalls.KeywordMatchesAtEnd | berkeley_evaluation.py:146 | `finditer` at the end of the text yields nothing |
| FunctionCalls.KeywordMatchesSkip | berkeley_evaluation.py:146 | `finditer` passes over positions where no match starts |
| FunctionCalls.KeywordMatchesStep | berkeley_evaluation.py:146 | a match at the current position is the first one yielded; the rest follow from its end |
| FunctionCalls.KeywordMatchesCons | berkeley_evaluation.py:146 | a match followed by a stretch that changes nothing for `finditer` |
| FunctionCalls.AssignKeys | berkeley_evaluation.py:146-156 | after the loop a key is in the argument map iff it was there before or some match names it |
| FunctionCalls.AssignUntouched | berkeley_evaluation.py:146-156 | a key no match names keeps its value |
| FunctionCalls.AssignLast | berkeley_evaluation.py:146-156 | a repeated key ends with the coerced value of the last match naming it |
| FunctionCalls.ParseJson | berkeley_evaluation.py:126-134 | the JSON tier yields the name of the leftmost JSON match together with what its object decodes to; it yields nothing only when every decodable match has an earlier match before it (the source stops at the first match) |
| FunctionCalls.ParseCallSyntax | berkeley_evaluation.py:137-158 | the call tier yields a dotted name, and every argument key is a word |
| FunctionCalls.Parse | berkeley_evaluation.py:122-160 | no call is parsed exactly when the JSON tier gives nothing and no call syntax occurs anywhere |
| FunctionCalls.ParseKeywordArguments | berkeley_evaluation.py:143-156 | the `finditer` loop builds exactly the map the coerced keyword matches give, in order |
| FunctionCalls.Assign | berkeley_evaluation.py:146-156 | the assignments keep every key already present and add the key of every match |
| FunctionCalls.KeywordArguments | berkeley_evaluation.py:143-156 | the argument map holds only word keys, and the key of every keyword match is in it |
| FunctionCalls.ParseFunctionCall | berkeley_evaluation.py:122-160 | the source's control flow (search, decode, fall back on a decode failure, then the call pattern) computes `Parse` |
| FunctionCalls.QuotedNameAtText | berkeley_evaluation.py:125 | the quoted-name part of the pattern reads a written name back |
| FunctionCalls.JsonNameAtText | berkeley_evaluation.py:125 | the first half of the pattern reads a written `{"name": "<name>", ` back |
| FunctionCalls.ObjectAtText | berkeley_evaluation.py:125 | the object part reads a written flat object back, with any blanks before its closing brace |
| FunctionCalls.JsonArgumentsAtText | berkeley_evaluation.py:125 | the second half reads a written `"arguments": <object> }` back, blanks before the brace included |
| FunctionCalls.JsonAtText | berkeley_evaluation.py:125 | the JSON pattern reads a written call object back wherever it stands, blanks before the last brace included |
| FunctionCalls.JsonTextFirst | berkeley_evaluation.py:125-126 | the search finds a written call object, blanks before the last brace included, at the start of the text |
| FunctionCalls.ParseJsonFirst | berkeley_evaluation.py:126-132 | round trip: a written `{"name": n, "arguments": o }` (blanks or a newline allowed before the last brace) parses to n with the decoded o, whatever follows |
| FunctionCalls.ParseJsonUndecodable | berkeley_evaluation.py:127-135 | when the argument object of a written call object does not decode, the result is whatever the call pattern finds |
| FunctionCalls.KeywordMatchesAfterComma | berkeley_evaluation.py:145-146 | the `, ` after a written piece holds no keyword match |
| FunctionCalls.KeywordAtText | berkeley_evaluation.py:145 | the keyword pattern reads a written piece back when a comma or the end follows |
| FunctionCalls.JoinArgsShape | berkeley_evaluation.py:145-146 | written argument text is its first piece, then the end or `, ` and the rest |
| FunctionCalls.JoinArgsFirstMatch | berkeley_evaluation.py:145-146 | the first keyword match over written argument text is its first piece |
| FunctionCalls.KeywordMatchesHead | berkeley_evaluation.py:146 | `finditer` yields the first piece, then continues where the next piece starts |
| FunctionCalls.KeywordMatchesText | berkeley_evaluation.py:146 | the keyword matches over written argument text are exactly its pairs, in order |
| FunctionCalls.KeywordMatchesPieces | berkeley_evaluation.py:146 | the same for non-empty argument text, by induction over the pieces |
| FunctionCalls.CallTextNoJson | berkeley_evaluation.py:125-126 | `name(args)` without braces holds no JSON match |
| FunctionCalls.CallAtText | berkeley_evaluation.py:137-138 | the call pattern reads `name(args)` back from its first character |
| FunctionCalls.ParseCallText | berkeley_evaluation.py:122-160 | round trip: `name(k1=v1, k2=v2, ...)` parses to `name` with each key mapped to its coerced value, the last one winning |
| FunctionCalls.PositionalOnly | berkeley_evaluation.py:143-156 | argument text without `=` yields an empty argument map |
| CallJudge.Accepts | berkeley_evaluation.py:165-183 | no parsed call or no ground truth rejects; an accepted call always has a non-empty alternative behind it |
| CallJudge.FuncSatisfied | berkeley_evaluation.py:170-182 | one entry is satisfied only by a call whose name ends with the entry's name and that leaves out only arguments allowed to be `""`; an entry without arguments is satisfied exactly by a matching name |
| CallJudge.EvaluateFunctionCall | berkeley_evaluation.py:163-183 | the nested loops with their early exits return exactly `Accepts`: some entry of some alternative has a matching name and every expected argument met; no call or no ground truth rejects |
| CallJudge.NameMatches | berkeley_evaluation.py:170 | a name matches exactly when the parsed name ends with it, as plain text |
| CallJudge.Acceptable | berkeley_evaluation.py:175 | an allowed value is acceptable; with no allowed values nothing is |
| CallJudge.ArgSatisfied | berkeley_evaluation.py:172-180 | a present argument with an allowed value is met; an absent one is met iff `""` is allowed; an empty allowed list is never met |
| CallJudge.JudgeIrrelevance | berkeley_evaluation.py:479-485 | a refusal is at least four characters long, and any response containing "none" or "cannot", in any case, is a refusal |
| CallJudge.ArgumentsMatch | berkeley_evaluation.py:171-180 | the argument loop with its `break` reports a match exactly when every expected argument is met |
| CallJudge.Entries | berkeley_evaluation.py:168-169 | every entry of every alternative is in the entry set |
| CallJudge.AcceptsByEntries | berkeley_evaluation.py:168-182 | the verdict depends only on the set of entries: accepted iff some entry is satisfied |
| CallJudge.AcceptsMonotone | berkeley_evaluation.py:168-182 | a ground truth with more entries accepts everything a smaller one does |
| CallJudge.MoreAlternatives | berkeley_evaluation.py:168-182 | adding alternatives before or after never turns an acceptance into a rejection |
| CallJudge.NamedArgumentsDecide | berkeley_evaluation.py:172-180 | two calls agreeing on every argument the ground truth names get the same verdict |
| CallJudge.ExtraArgumentIgnored | berkeley_evaluation.py:172-180 | an extra argument the ground truth never names leaves the verdict unchanged |
| CallJudge.MissingArgument | berkeley_evaluation.py:178-180 | an absent argument is met iff `""` is among its allowed values |
| CallJudge.AllowedAcceptable | berkeley_evaluation.py:173-177 | an allowed value is acceptable, and so is a string spelling an allowed value's `str()` |
| CallJudge.IntMatchesWholeFloat | berkeley_evaluation.py:175 | the integer n is accepted where the float n.0 is allowed |
| CallJudge.ExactCallSatisfies | berkeley_evaluation.py:170-182 | a call naming an entry exactly, with an allowed value for every argument, satisfies it |
| CallJudge.QualifiedNameMatches | berkeley_evaluation.py:170 | a name is matched by any name ending with it, a module-qualified one among them |
| CallJudge.RequestedRefusalAccepted | berkeley_evaluation.py:479-485 | the phrase the prompt asks for, `NO_FUNCTION_NEEDED`, is judged a correct refusal |
| CallJudge.IrrelevanceSurroundingText | berkeley_evaluation.py:479-485 | a refusal stays one with any text around it |
| CallJudge.IrrelevanceIgnoresCase | berkeley_evaluation.py:479 | upper- or lower-casing the response first changes no irrelevance verdict |
| BerkeleyRunner.TruthFor | berkeley_evaluation.py:443 | `answers.get(test_id, [])`: the id's ground truth when present, else `[]` |
| BerkeleyRunner.Verdict | berkeley_evaluation.py:477-496 | a verdict is true only for a successful generation; an irrelevance verdict needs at least four characters; otherwise a call was parsed and the ground truth is non-empty |
| BerkeleyRunner.RecordOf | berkeley_evaluation.py:443-506 | the record holds the problem, the generation and the ground truth by id with `[]` as default; it is correct only for a successful generation |
| BerkeleyRunner.Verdicts | berkeley_evaluation.py:477-496 | one verdict per problem; a verdict is true only for a successful generation |
| BerkeleyRunner.Records | berkeley_evaluation.py:499-506 | one record per problem, in order |
| BerkeleyRunner.FlagsAreVerdicts | berkeley_evaluation.py:488-506 | the flags the records hold are the category's verdicts, in order |
| BerkeleyRunner.JudgeItem | berkeley_evaluation.py:438-506 | the loop body builds the record of problem k: ground truth by id with `[]` as default, the category's judge only on a successful generation |
| BerkeleyRunner.TestGeneric | berkeley_evaluation.py:421-514 | returns the category's records in order, the count of correct ones, a count no larger than the total, and the rate; no problems gives the zero result |
| BerkeleyRunner.FailedGenerationIncorrect | berkeley_evaluation.py:495-496 | a failed generation is recorded as incorrect |
| BerkeleyRunner.OverallAccuracy | berkeley_evaluation.py:606 | no problems gives 0; at most as many correct as problems gives a percentage |
| BerkeleyRunner.OverallAccuracyBounds | berkeley_evaluation.py:566-567 | over consistent category results the total correct is at most the total number of problems, and the overall accuracy (line 606) is a percentage |
| BerkeleyRunner.ValidRates | berkeley_evaluation.py:568 | at most one rate per category, and none when no category has problems |
| BerkeleyRunner.ValidRatesBounds | berkeley_evaluation.py:568 | every rate of a category with problems is a percentage |
| BerkeleyRunner.SumRealsBounds | berkeley_evaluation.py:569 | a sum of n percentages lies between 0 and 100 n |
| BerkeleyRunner.MeanBounds | berkeley_evaluation.py:569 | a sum of n percentages divided by n is a percentage |
| BerkeleyRunner.AverageRate | berkeley_evaluation.py:569 | no category with problems gives 0; percentages in give a percentage out |
| BerkeleyRunner.AverageRateBounds | berkeley_evaluation.py:568-569 | the average category rate over the categories with problems is a percentage |
| BerkeleyRunner.ValidRatesConcat | berkeley_evaluation.py:568 | the valid rates of two result lists are the valid rates of each, one after the other |
| BerkeleyRunner.EmptyCategoryIgnored | berkeley_evaluation.py:568-569 | a category without problems, wherever it stands, leaves the average rate unchanged |
| AgentBench.NumberTokenAt | agentbench_evaluation.py:92 | a match of `\b\d+\.?\d*\b` starts with a digit at a word boundary and ends at a boundary |
| AgentBench.NumberTokenShape | agentbench_evaluation.py:92 | what the token scanner matches is digits, then possibly a point and more digits |
| AgentBench.NumberTokenLongest | agentbench_evaluation.py:92 | every well-shaped stretch between two boundaries is matched, and none is longer than the match (the backtracking order) |
| AgentBench.SearchNumber | agentbench_evaluation.py:92 | the leftmost token from a position on, with none before it |
| AgentBench.NumberSpans | agentbench_evaluation.py:92 | `finditer`: the matches from a position on, each a token, in order and never overlapping; none exactly when the search finds nothing |
| AgentBench.LastNumber | agentbench_evaluation.py:92-95 | `findall(...)[-1]`: the last of the `finditer` matches, with no token after it; None iff there is no match |
| AgentBench.LastNumberIsLastMatch | agentbench_evaluation.py:92-95 | only the last match is read: it is one of the matches, every other match ends before it starts, and no match has it starting strictly inside |
| AgentBench.NumberShapeValue | agentbench_evaluation.py:95 | a token always reads as a float, and never as a negative one |
| AgentBench.JudgeAnswer | agentbench_evaluation.py:72-118 | a right answer has one of the five tags; an SQL one contains "select"; a math or multiple-choice one has a truthy scalar expected answer; a knowledge-graph one has a non-empty entity list |
| AgentBench.JudgeSql | agentbench_evaluation.py:77-83 | right only with "select"; with no labels, right iff "select" occurs; with "select" and the lowered first label, right |
| AgentBench.JudgeKg | agentbench_evaluation.py:85-89 | right only with a non-empty entity list whose first name is non-empty and occurs, lower-cased, in the response |
| AgentBench.ExpectedFloat | agentbench_evaluation.py:96 | `float(expected_answer)`: an integer gives its value, a string its `float()`, None and an unreadable string raise; a list always raises |
| AgentBench.JudgeMath | agentbench_evaluation.py:91-100 | right only for a truthy scalar that reads as a float, and a response holding a digit |
| AgentBench.JudgeMcq | agentbench_evaluation.py:102-106 | right only for a truthy one-character expected answer whose capital is A-D |
| AgentBench.JudgeOs | agentbench_evaluation.py:108-116 | right only for a response longer than 50 characters or holding a keyword; without a trigger phrase, right iff longer than 50 |
| AgentBench.JudgeIgnoresCase | agentbench_evaluation.py:75 | the judge sees only the lower-cased response, so changing its case changes no verdict |
| AgentBench.AlwaysWrong | agentbench_evaluation.py:93-118 | an unknown tag, or a falsy expected answer for math or multiple choice, is always judged wrong |
| AgentBench.SqlNeedsSelect | agentbench_evaluation.py:77-83 | an SQL answer without "select", in any case, is wrong |
| AgentBench.SqlLabelMentioned | agentbench_evaluation.py:78-81 | an SQL answer with "select" that mentions the first label is right |
| AgentBench.SqlWordMentioned | agentbench_evaluation.py:78-81 | an SQL answer with "select" that mentions one whitespace-split word of the lower-cased first label is right |
| AgentBench.SqlScalarSelect | agentbench_evaluation.py:77-83 | with a scalar or an empty expected list, an SQL answer is right iff it contains "select" |
| AgentBench.KgEntityMentioned | agentbench_evaluation.py:85-87 | a knowledge-graph answer mentioning the first entity's non-empty name, in any case, is right |
| AgentBench.KgNamelessEntity | agentbench_evaluation.py:87 | an entity without a name is never found |
| AgentBench.KgNeedsEntities | agentbench_evaluation.py:85-89 | a scalar or an empty list as the expected answer is never matched |
| AgentBench.NoDigitsNoNumber | agentbench_evaluation.py:92 | text without digits holds no token |
| AgentBench.LastNumberAfterText | agentbench_evaluation.py:92-95 | a number written after digit-free text ending in a non-word character is the last token |
| AgentBench.MathReadsLastNumberUnsigned | agentbench_evaluation.py:91-100 | "...is 42" is right for 42 and wrong for -42: the last number is read without its sign |
| AgentBench.MathLastNumber | agentbench_evaluation.py:91-100 | the math judge accepts n for a number n written after digit-free text, and rejects -n: the sign is never read |
| AgentBench.MathNegativeNeverRight | agentbench_evaluation.py:91-100 | for every response, an expected value of -0.01 or less is judged wrong: the token read is never negative |
| AgentBench.MathNearZeroNegative | agentbench_evaluation.py:91-100 | "0" is judged right for the expected value -0.005, which lies within 0.01 of it |
| AgentBench.McqSingleLetter | agentbench_evaluation.py:102-106 | a response that is just the expected letter, in either case, is right |
| AgentBench.McqNoLetter | agentbench_evaluation.py:103-106 | without an isolated letter a-d in the lower-cased response the answer is wrong |
| AgentBench.McqArticleFirst | agentbench_evaluation.py:103-105 | the first isolated letter decides: a response opening with the article "a" is wrong for B whatever follows |
| AgentBench.McqFirstLetterDecides | agentbench_evaluation.py:102-106 | for every response, the first isolated letter a-d decides: the answer is right iff its capital is `str(expected).upper()` for a truthy scalar, whatever follows |
| AgentBench.OsFallbackLength | agentbench_evaluation.py:108-116 | without a trigger phrase in the question, an answer is right iff it is longer than 50 characters |
| AgentBench.OsHiddenFilesFirst | agentbench_evaluation.py:110-111 | "hidden files" in the question takes precedence: right iff "ls -a" or "find" occurs |
| AgentBench.Verdict | agentbench_evaluation.py:157-165 | a verdict is true only for a successful generation with a known tag |
| AgentBench.RecordOf | agentbench_evaluation.py:168-175 | the record numbers problems from 1, holds the generation, and is correct only for a successful generation |
| AgentBench.Records | agentbench_evaluation.py:168-175 | one record per problem; only a successful generation can be judged correct |
| AgentBench.JudgeProblem | agentbench_evaluation.py:158-175 | the loop body builds the record of problem k: `judge_answer` only on a successful generation, ids counting from 1 |
| AgentBench.RunTask | agentbench_evaluation.py:147-185 | returns the records in order, the count of correct ones, at most the total, and the rate with the zero guard |
| AgentBench.PerfectRun | agentbench_evaluation.py:147-179 | when every generation succeeds and is judged right, every problem counts and the rate is 100 |
| SimpleAgents.SignedNumberAt | test_3_simple_agents.py:239-255 | a match of `[+-]?\d+\.?\d*` ends after it starts, within the text; that it is a maximal token is `SignedNumberShape`, and that no token is missed is `SignedNumberFound` |
| SimpleAgents.SignedNumberShape | test_3_simple_agents.py:239-255 | the match is a signed token, and the greedy match: no digit or point could extend it |
| SimpleAgents.SignedNumberFound | test_3_simple_agents.py:239-255 | wherever a signed token's text starts, the scanner matches there, at least as far as the token reaches |
| SimpleAgents.SignedShapeParses | test_3_simple_agents.py:248 | every signed token reads as a float, so `float()` on a capture never raises |
| SimpleAgents.TokenValue | test_3_simple_agents.py:248 | `float()` of a capture: a value exactly when the text reads as a float, which every signed token does |
| SimpleAgents.PatternAt | test_3_simple_agents.py:239-241 | a pattern match starts with the literal, ignoring case, and captures a signed token after it |
| SimpleAgents.SearchPattern | test_3_simple_agents.py:245 | the leftmost case-insensitive pattern match, with none before it |
| SimpleAgents.SearchSigned | test_3_simple_agents.py:255 | the leftmost signed token from a position on, with none before it |
| SimpleAgents.SignedSpans | test_3_simple_agents.py:255 | `finditer` for signed numbers: the matches from a position on, in order and never overlapping; none exactly when the search finds nothing |
| SimpleAgents.LastSigned | test_3_simple_agents.py:255-258 | `findall(...)[-1]`: the last of the `finditer` matches, with no number after it; None iff there is no match |
| SimpleAgents.LastSignedIsLastMatch | test_3_simple_agents.py:255-258 | only the last match is read: every other match ends before it starts, so a number starting inside an earlier match is never read |
| SimpleAgents.LastSignedKeepsSign | test_3_simple_agents.py:255-258 | in "5-3" the matches are "5" and "-3", and the last number read is "-3", sign included |
| SimpleAgents.PatternAnswer | test_3_simple_agents.py:244-251 | the patterns give a value only where the response holds a signed number, and give nothing exactly when none of them matches |
| SimpleAgents.PatternAnswerFirst | test_3_simple_agents.py:244-251 | the first pattern, in order, whose search matches supplies the value, and its capture always reads as a float, so the `except` branch never moves on |
| SimpleAgents.MathAnswer | test_3_simple_agents.py:237-260 | an answer is extracted exactly when the response holds a signed number anywhere |
| SimpleAgents.MathAnswerPattern | test_3_simple_agents.py:238-251 | for every response with a matching pattern, the answer is the value of the first matching pattern's capture |
| SimpleAgents.MathAnswerFallback | test_3_simple_agents.py:253-260 | for every response no pattern matches, the answer is the value of the last number, or nothing when there is no number |
| SimpleAgents.MathCorrect | test_3_simple_agents.py:262-263 | a correct answer needs a signed number in the response |
| SimpleAgents.ExtractMathAnswer | test_3_simple_agents.py:237-260 | the pattern loop with its `break`, then the fallback, computes `MathAnswer`: the first matching pattern's number, else the last number |
| SimpleAgents.PatternDecides | test_3_simple_agents.py:244-250 | a pattern that matches always decides the answer |
| SimpleAgents.NumberExtracted | test_3_simple_agents.py:253-260 | with a number anywhere in the response, something is always extracted |
| SimpleAgents.TokenExtracted | test_3_simple_agents.py:239-260 | any signed token's text anywhere in the response is found by the search, and an answer is extracted |
| SimpleAgents.FinalAnswerToken | test_3_simple_agents.py:239 | where the number in `Final Answer: <n><rest>` starts and ends |
| SimpleAgents.FinalAnswerRoundTrip | test_3_simple_agents.py:237-264 | round trip: `Final Answer: <n>` yields n, and is judged right for n |
| SimpleAgents.ExtractLetter | test_3_simple_agents.py:378-384 | the letter is a capital A-D standing at the leftmost position of the stripped response where an isolated capital A-D stands; nothing iff no such capital occurs |
| SimpleAgents.LetterCorrect | test_3_simple_agents.py:382-385 | a correct answer needs an expected answer of one character whose capital is A-D |
| SimpleAgents.NoCapitalNoLetter | test_3_simple_agents.py:382 | lower-case letters are never recognised: without a capital A-D nothing is extracted |
| SimpleAgents.LeadingLetter | test_3_simple_agents.py:376-392 | a response opening with a standalone capital A-D yields it, and is right when it is the expected letter in either case |
| SimpleAgents.Successes | test_3_simple_agents.py:153-154 | one success flag per generation |
| SimpleAgents.PuzzleRecordOf | test_3_simple_agents.py:160-167 | the record of puzzle k: its number from 1, story, reference answer, and the generation's response, success flag and error |
| SimpleAgents.TestLateralThinking | test_3_simple_agents.py:137-185 | counts the successful generations (at most the total), takes the rate, and records every generation as it came |
| SimpleAgents.MathVerdicts | test_3_simple_agents.py:232-264 | one verdict per problem |
| SimpleAgents.MathRecordOf | test_3_simple_agents.py:271-280 | the record of problem k: its fields; a failed generation extracts nothing and is not correct; a correct one extracted a value within 0.01 of the expected answer |
| SimpleAgents.MathRecords | test_3_simple_agents.py:271-280 | one record per problem, in order |
| SimpleAgents.FailedMathRecord | test_3_simple_agents.py:228-231 | a failed generation is recorded with nothing extracted and as not correct |
| SimpleAgents.JudgeMath | test_3_simple_agents.py:229-280 | the loop body builds the record of problem k: extraction and comparison only on a successful generation |
| SimpleAgents.TestMathReasoning | test_3_simple_agents.py:210-283 | correct answers at most the successful generations, at most the total; both rates; the records in order |
| SimpleAgents.LetterVerdicts | test_3_simple_agents.py:375-392 | one verdict per question |
| SimpleAgents.QuestionRecordOf | test_3_simple_agents.py:396-406 | the record of question k: its fields and options; a failed generation extracts no letter and is not correct; a correct one extracted `expected.upper()` |
| SimpleAgents.QuestionRecords | test_3_simple_agents.py:396-406 | one record per question, in order |
| SimpleAgents.FailedQuestionRecord | test_3_simple_agents.py:372-375 | a failed generation is recorded with no letter and as not correct |
| SimpleAgents.JudgeQuestion | test_3_simple_agents.py:372-406 | the loop body builds the record of question k: stripping, letter extraction and comparison only on a successful generation |
| SimpleAgents.TestCommonSenseQa | test_3_simple_agents.py:353-409 | correct answers at most the successful generations, at most the total; both rates; the records in order |

## Left out

- Calling the model (HTTP, retries, sleeping, printing): each runner receives the generation records as an input sequence.
- Loading problems, answers and datasets from files or spreadsheets, the prompt texts and `format_function_schema`: problems are inputs, and prompts do not affect any verdict.
- `json.loads` is the `Decoder` parameter. The argument object's text is handed to it unchanged.
- `main`, the report writers, the credentials check and the JSON result files. Only the Berkeley totals and average category rate (berkeley_evaluation.py:566-569, 606) are modelled, by `BerkeleyRunner.OverallAccuracy` and `BerkeleyRunner.AverageRate`. The AgentBench summary totals and unfiltered average rate (agentbench_evaluation.py:449-451) are not.
- Floats are exact decimals without a sign on zero. Binary rounding, negative zero, exponent syntax (`1e3`), `inf` and `nan` are not modelled. Neither are `int()`/`float()` on underscores or non-ASCII digits, or the exponent form of `str(float)`.
- Numerals.FloatRepr: `-0.0` is the same decimal as `0.0`, so its text is `0.0`; Python writes `-0.0`. The `str()` comparison in `evaluate_function_call` (line 175) therefore accepts `-0.0` against an allowed `"0.0"` and rejects it against `"-0.0"`, the reverse of the source.
- Character classes, case mapping and `re.IGNORECASE` cover ASCII only.
- AgentBench.JudgeAnswer: requires `Judgeable`. A non-empty list of objects given to the SQL judge would be printed with `str(dict)`. A list of scalars given to the knowledge-graph judge raises `AttributeError`. Neither case is modelled.
- `str()` of a list or dictionary is not modelled. A list value in a parsed argument or a ground truth is out of scope, and so is a dict.
- A ground-truth mapping is a sequence of entries in order. Duplicate keys, which a Python dict cannot hold, are not excluded.
- AgentBench.RunTask: the common-sense runner also records the question's options. The model's record leaves them out.
- SimpleAgents.TestMathReasoning: the expected answers are integers, as in the source's problem table.
- `test_complex_agents.py` is not part of this model.
