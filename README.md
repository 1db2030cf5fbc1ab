# Calculator service: a verified model

This project models the expression pipeline of the calculator's `CalcService`
(`src/calc/calc.service.ts`). The pipeline has these stages:

- **Pre-check.** The input must match `^[\d+\-*/\s]+$`.
- **Scan (`tokenize`).** A global regular expression runs with `exec` until it
  returns null. Each match is trimmed; unless it is then empty, it is pushed
  as a number or a string.
- **Validation (`isValidExp`).** One forward pass over the token list, with
  early returns.
- **Evaluation (`evaluateExp`).** A strict left-to-right accumulator loop with no
  operator precedence. A zero divisor is refused, and any other string is
  refused as an operator.
- **Wiring (`calculateExpression`).** Connects the stages. Its `catch` passes a
  Bad Request exception on and turns anything else into "An unexpected error
  occurred".

The scan, the validator and the evaluator are methods with their loops, each
proved against a pure function. The pre-check is a function characterised by
its `ensures`. `calculateExpression` is a method without a loop, proved equal
to the function `Calculate`. Lemmas then say what those functions mean:

- the scan reads tokens left to right, and white space of any kind or amount
  around and between tokens changes nothing (two numbers need some white space
  between them, or they would be one number);
- the validator accepts exactly the grammar `Num (Op Num)*`;
- the evaluator computes the expression nested to the left;
- the only responses are a number, "Invalid expression provided" and
  "Division by zero".

Modules, one per file, in dependency order:

- `Results` (`results.dfy`): error kinds, their messages and the 400 body.
- `Tokens` (`tokens.dfy`): the token datatype and the character classes.
- `Tokenizer` (`tokenizer.dfy`): the regular expression, `exec`, `trim`, the scan
  function `Lex`, the `tokenize` method and the properties of the scan.
- `Validator` (`validator.dfy`): `isValidExp` and the grammar.
- `Evaluator` (`evaluator.dfy`): `evaluateExp`, the left-nested reference value
  and the failure analysis.
- `CalcService` (`calc_service.dfy`): the pre-check, `try`/`catch` and
  `calculateExpression`.
- `Scenarios` (`scenarios.dfy`): worked expressions, each derived from the
  general lemmas.

Numbers are exact `real`s. A token is `Num(value)` or `Str(text)`, mirroring
the source's `(number | string)[]`. Thrown exceptions become `Failure(kind)`
values of a `Result`.

Three behaviours of the code are easy to misread:

- **Parentheses.** The scan pushes `(` and `)` as string tokens. It does not
  drop them. The pre-check already refuses both, so they never reach the later
  stages. `Scenarios.ParenthesisScan` and `Scenarios.ParenthesisPastValidator`
  show what would happen without the pre-check. An expression such as `2(3`
  would scan to a number, the string `(` and a number. The validator would let
  those tokens through, and the walk would reach its `Invalid operator` branch.
- **The empty string.** It is refused by the pre-check (the `+` of the pattern).
  It is not refused by the structural test. The message is the same.
- **The `!tokens` test (line 19).** It never holds, because the token list is
  an array and arrays are truthy. Input made only of white space passes the
  pre-check, scans to no tokens and is refused by `isValidExp`, whose
  `tokens[0]` is then `undefined`.

## Model

| member | source | states |
|---|---|---|
| Tokenizer.MatchAtStart | src/calc/calc.service.ts:43 | the pattern matches at a position exactly when the character there is a digit, one of `+ - * / ( )` or white space |
| Tokenizer.NumberMatchIsLiteral | src/calc/calc.service.ts:43 | the greedy match of `\d+\.?\d*` is a whole number literal and keeps the value of the text it starts |
| Tokenizer.Exec | src/calc/calc.service.ts:46 | `exec` from `lastIndex` returns the leftmost match at or after it, of the length the pattern matches there; no position before that match, or before the end when it returns null, matches |
| Tokenizer.Trim | src/calc/calc.service.ts:47 | `trim` keeps the part of the match that neither begins nor ends with white space, and cuts off only white space before and after it |
| Tokenizer.TokensOfMatch | src/calc/calc.service.ts:47-51 | a match contributes at most one token, and a string token is the trimmed text when that is not a number literal |
| Tokenizer.TrimSpaces | src/calc/calc.service.ts:47 | a match of white space trims to the empty string |
| Tokenizer.MatchLex | src/calc/calc.service.ts:47-51 | the tokens pushed for a match are the tokens the scan reads at that position: a literal's value, a one-character string, or nothing for white space |
| Tokenizer.PushMatch | src/calc/calc.service.ts:47-52 | the loop body appends exactly the tokens of one match to the list |
| Tokenizer.ExecAt | src/calc/calc.service.ts:46 | when the pattern matches at `lastIndex`, `exec` returns that match |
| Tokenizer.ExecLex | src/calc/calc.service.ts:46-53 | one `exec` call accounts for all tokens of the text from `lastIndex`: none when it returns null, otherwise the match's tokens followed by the tokens after it |
| Tokenizer.Tokenize | src/calc/calc.service.ts:41-56 | the loop returns the token list `Lex` of the whole expression |
| Tokenizer.LexAllowedTokens | src/calc/calc.service.ts:43-51 | on the pre-checked alphabet every token is a natural number or one of the four operators |
| Tokenizer.SpanSpaces | src/calc/calc.service.ts:43 | the `\s+` alternative swallows a string of white space whole |
| Tokenizer.LexDigits | src/calc/calc.service.ts:49-50 | a run of digits scans to one number token with the run's decimal value |
| Tokenizer.LexAppend | src/calc/calc.service.ts:43-53 | the scan splits wherever a character that cannot continue a number follows: the tokens of `s + t` are those of `s` and then those of `t`, in order |
| Tokenizer.LexSymbolFirst | src/calc/calc.service.ts:43 | an operator or parenthesis is one string token whatever follows it |
| Tokenizer.LexBlank | src/calc/calc.service.ts:43-53 | text made only of white space scans to no tokens |
| Tokenizer.LexLeadingSpaces | src/calc/calc.service.ts:43-53 | any white space before text that does not begin with white space adds no token |
| Tokenizer.LexTrailingSpaces | src/calc/calc.service.ts:43-53 | any white space after the text adds no token |
| Tokenizer.LexHeadRest | src/calc/calc.service.ts:43-53 | a token's text followed by text that scans to further tokens scans to them all, when a number is not followed by something that continues it |
| Tokenizer.LayoutAllowed | src/calc/calc.service.ts:10 | tokens written out with white space use only characters the pre-check allows |
| Tokenizer.LexLayout | src/calc/calc.service.ts:41-56 | tokens written out with any white space (spaces, tabs, line breaks, runs of them) before, between and after them scan back to the same list, as long as two numbers have some white space between them |
| Tokenizer.LexRender | src/calc/calc.service.ts:41-56 | tokens written out with single spaces scan back to the same list: spaces never give a token, and numbers separated by a space stay separate |
| Tokenizer.LexCompact | src/calc/calc.service.ts:41-56 | tokens written out with no spaces scan back to the same list when no two numbers are neighbours |
| Validator.IsValidExp | src/calc/calc.service.ts:58-76 | the verdict of the loop with its early returns equals `Accepts`: a number first, each later position checked as in the loop, a number last |
| Validator.AcceptedParity | src/calc/calc.service.ts:61-72 | in an accepted list whose strings are operators, numbers sit exactly at the even positions |
| Validator.AcceptsIffAlternating | src/calc/calc.service.ts:58-76 | when every string is an operator, the validator accepts exactly the lists of the grammar `Num (Op Num)*` (both directions), so the empty list is refused |
| Validator.AlternatingAccepted | src/calc/calc.service.ts:58-76 | every list of the grammar is accepted |
| Evaluator.Apply | src/calc/calc.service.ts:86-112 | a case of the switch fails exactly for a string that is not an operator (Invalid operator) or `/` with a zero operand (Division by zero), and `/` otherwise divides |
| Evaluator.AfterNumber | src/calc/calc.service.ts:63-71 | in an accepted list the token after a number is a string, and an operator there is followed by a number |
| Evaluator.EvalFromStep | src/calc/calc.service.ts:82-115 | one iteration of the walk: a string that is not an operator fails with Invalid operator, an operator is applied to the number after it and the walk goes on two tokens further |
| Evaluator.EvaluateExp | src/calc/calc.service.ts:78-118 | the loop over an accepted list returns or fails as `Evaluate`, the walk two tokens at a time |
| Evaluator.ForwardSnoc | src/calc/calc.service.ts:82-115 | applying one more step after the walk is the walk over the longer list |
| Evaluator.ForwardIsNested | src/calc/calc.service.ts:82-115 | applying the steps front to back gives the value nested to the left |
| Evaluator.EvalFromForward | src/calc/calc.service.ts:82-115 | on the grammar, the walk from an odd position is the front-to-back application of the remaining steps |
| Evaluator.EvaluateIsNested | src/calc/calc.service.ts:78-118 | on the grammar the walk yields `((a0 op1 a1) op2 a2) ...`, with no precedence |
| Evaluator.NestedFailure | src/calc/calc.service.ts:96-103 | with the four operators, the nested value fails exactly when some step divides by zero, and then with Division by zero |
| Evaluator.EvaluateFailure | src/calc/calc.service.ts:96-111 | on an accepted list whose strings are operators, the walk fails exactly on a zero divisor, never with Invalid operator |
| CalcService.PreCheck | src/calc/calc.service.ts:10 | the pre-check holds exactly for non-empty input made only of digits, `+ - * /` and white space |
| CalcService.Catch | src/calc/calc.service.ts:29-38 | a normal return becomes a success with the same value; a thrown Bad Request goes out with its kind unchanged; only another exception becomes An unexpected error occurred |
| CalcService.CalculateExpression | src/calc/calc.service.ts:6-39 | the method's response is `Calculate`: pre-check, then scan and validate, then evaluate, with each thrown Bad Request caught and passed on |
| CalcService.PreCheckedTokens | src/calc/calc.service.ts:10-18 | a pre-checked expression scans only to natural numbers and the four operators |
| CalcService.CalculateMeaning | src/calc/calc.service.ts:6-39 | a pre-checked expression whose tokens follow `Num (Op Num)*` gets its left-nested value; every other input gets Invalid expression provided |
| CalcService.CalculateErrors | src/calc/calc.service.ts:29-38 | every failure is Invalid expression provided or Division by zero; Invalid operator and the unexpected error never occur; Division by zero means a valid expression with a zero divisor |
| CalcService.CalculateRender | src/calc/calc.service.ts:6-39 | an expression of the grammar written with spaces evaluates to its left-nested value |
| CalcService.CalculateTokens | src/calc/calc.service.ts:6-39 | an expression of allowed characters that scans to tokens of the grammar gets their left-nested value |
| CalcService.AlternatingSeparated | src/calc/calc.service.ts:58-76 | in the grammar an operator stands between any two numbers |
| CalcService.CalculateCompact | src/calc/calc.service.ts:6-39 | the same expression written without spaces evaluates alike |
| CalcService.CalculateLayout | src/calc/calc.service.ts:6-39 | an expression of the grammar written with any white space around and between its tokens evaluates to its left-nested value |
| CalcService.SpacingIrrelevant | src/calc/calc.service.ts:43-53 | two writings of the same tokens that differ only in white space (of any kind and amount, at the ends and between tokens) get the same response, valid expression or not |
| CalcService.BlankRejected | src/calc/calc.service.ts:19-25 | white space alone passes the pre-check, scans to no tokens and is refused; the empty string fails the pre-check; both get Invalid expression provided |
| Scenarios.NoPrecedence | src/calc/calc.service.ts:86-95 | `2+3*4` gives 20 |
| Scenarios.LeftToRight | src/calc/calc.service.ts:82-115 | `10/2-3` gives 2 |
| Scenarios.NoSteps | src/calc/calc.service.ts:79-82 | a lone natural number, written out, evaluates to itself |
| Scenarios.OneStep | src/calc/calc.service.ts:82-115 | an expression of one step, written without spaces, gets the value of that operator applied to the two numbers |
| Scenarios.TwoSteps | src/calc/calc.service.ts:82-115 | an expression of two steps, written with single spaces or without spaces, applies the first step first, whatever the operators |
| Scenarios.NestedTwo | src/calc/calc.service.ts:82-115 | two steps are applied first one then the other |
| Scenarios.Spaced | src/calc/calc.service.ts:43 | `2 + 3 * 4` gets the same response as `2+3*4` |
| Scenarios.Padded | src/calc/calc.service.ts:43-53 | ` 2 + 3 ` gives 5: white space at the ends is dropped |
| Scenarios.Tabbed | src/calc/calc.service.ts:43-64 | `2\t 3` scans to two numbers, 2 and 3, and is refused |
| Scenarios.LoneNumber | src/calc/calc.service.ts:79-82 | `7` gives 7 |
| Scenarios.ZeroDividend | src/calc/calc.service.ts:96-104 | `0/5` gives 0 |
| Scenarios.ZeroDivisorRefused | src/calc/calc.service.ts:96-103 | `5/0` fails with Division by zero |
| Scenarios.TwoNumbers | src/calc/calc.service.ts:63-64 | `2 3` scans to two numbers, 2 and 3, and is refused |
| Scenarios.DoubleOperator | src/calc/calc.service.ts:65-71 | `2++3` scans to `2 + + 3` and is refused |
| Scenarios.LeadingOperator | src/calc/calc.service.ts:59 | `+2` is refused |
| Scenarios.TrailingOperator | src/calc/calc.service.ts:66-71 | `2+` is refused |
| Scenarios.PreCheckRefusals | src/calc/calc.service.ts:10-16 | `abc`, `2*(3+1)`, `2(3`, `2.5+1` and the empty string each fail the pre-check itself, and get Invalid expression provided |
| Scenarios.Blank | src/calc/calc.service.ts:59 | two spaces pass the pre-check and are refused |
| Scenarios.ParenthesisScan | src/calc/calc.service.ts:43-51 | a parenthesis between two numbers, as in `2(3`, is scanned as a string token of its own between the two number tokens |
| Scenarios.ParenthesisPastValidator | src/calc/calc.service.ts:58-76 | those tokens pass the validator, which looks only at the four operators |
| Scenarios.ParenthesisRefused | src/calc/calc.service.ts:10-16 | the pre-check refuses such an expression as invalid |

## Left out

- The HTTP controller, the logging middleware and the application module are
  not part of this model. They are wiring, timing and I/O around the service.
- The request body is modelled by its `expression` string only. A body whose
  `expression` is missing or not a string is not modelled.
- Numbers are exact reals, not IEEE-754 doubles. Rounding in `/`, overflow to
  Infinity and digit strings too long for a double are not modelled. The
  closing `Number(result)` calls therefore leave a number unchanged.
- Tokenizer.TokensOfMatch: `Number()` is modelled only on the texts the scan can
  produce. A number literal gives its value and a lone symbol character is
  not a number. The general parser of JavaScript string-to-number conversion
  is not modelled.
- Tokenizer.Exec: only this one pattern is modelled, as a direct scan. A general
  regular-expression engine is not.
- Evaluator.EvaluateExp: requires an accepted list. The source calls it only
  after `isValidExp` succeeds. On other lists the JavaScript reads `undefined`,
  which is not modelled.
- CalcService.Catch: other exceptions are modelled by one `OtherError` case. No
  modelled operation throws one. Faults of the runtime itself, such as running
  out of memory, are out of scope.
