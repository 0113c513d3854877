# Arithmetic worksheet generator: a Dafny model

This project models the question generator of a browser page that prints arithmetic worksheets
(`script.js`). The generator reads these inputs from the page:

- a digit specification such as `3x2x1` (one digit count per term, the last one reused for later terms),
- the number of values per question,
- an optional list of per-term maximum values, written the same way (`50x9`), with the checkbox that enables it,
- the operation,
- the number of questions,
- the orientation (stacked or on one line),
- the long-division checkbox,
- the decimal option and its number of places.

The model takes all of them except the decimal option, which it fixes off (see "## Left out").

From these the generator does the following, and the model follows it step by step:

1. `validateInputs` checks the inputs.
2. The digit specification and the limits are parsed with `split("x")` and `parseInt`.
3. For every term, the generator:
   - resolves the bounds (the natural range of the digit count, overridden by a limit, then repaired),
   - draws the operand,
   - clamps it to the limit.
4. The operation stage sorts the operands (subtraction and division) and fixes up a division so it comes out exact. This stage rewrites the array in place.
5. The answer comes from a `reduce` fold or a quotient.
6. The question is laid out in LaTeX: stacked by `formatTraditional`, on one line, or in long-division form.

Modules, one file each:

- `Wrappers` (`wrappers.dfy`): `Option` and `Result`.
- `JsBuiltins` (`js_builtins.dfy`): the JavaScript built-ins the generator relies on, for integer inputs. It covers:
  - `split("x")` after `toLowerCase`, and `join`,
  - `parseInt` with `trim`,
  - `Number.prototype.toString` and `Math.pow(10, k)`,
  - the truncating `%`.
- `TermSpec` (`term_spec.dfy`):
  - parsing of the digit specification and of the limit list,
  - the recycling of the last entry,
  - `validateInputs`,
  - the maxima shown as the placeholder of the limit field.
- `Bounds` (`bounds.dfy`):
  - bounds resolution and the repair,
  - the draw from `Math.random()`,
  - the safety clamp.
- `Operations` (`operations.dfy`):
  - the descending sort and the division fix-up, as methods on an `array<int>`,
  - the answer folds,
  - what each operation guarantees.
- `Generation` (`generation.dfy`): the two nested loops of `generateArithmeticTable`, as methods proved against the functions `QuestionsOf` and `Batch`.
- `Layout` (`layout.dfy`): `formatTraditional` (padding loop and content loop, as methods) and the LaTeX text of each question.

`Math.random()` results become a parameter. Each is a real `u` with `0 <= u < 1`, and the drawn offset is `floor(u * (max - min + 1))`. `DrawReachesEveryValue` shows that every offset in `[0, max - min]` is obtained from some `u`, so this parameter ranges over exactly the offsets the code can draw.

Some behaviours of `script.js` that are easy to misread:

- With a limit, the code sets `max = limit` and `min = 1` outright (`script.js:134-138`). It does not take the smaller of the limit and the natural maximum. It does not relax the minimum only when needed.
- The code does not report a limit of 0 or below as an error. Such a limit is repaired to the range `[1, 1]`, and the clamp then returns the limit itself (`Bounds.TermValueMeaning`).
- Sorting makes subtraction non-negative only for two operands: `5 - 4 - 3` is `-2` (`Operations.SubtractionOfThreeCanBeNegative`).
- The validator drops empty tokens but the generator does not. So `3x` is accepted for two values, and its second digit count is NaN (`TermSpec.TrailingSeparatorAccepted`).

## Model

| member | source | states |
|---|---|---|
| JsBuiltins.Split | script.js:101 | `split` always returns at least one token |
| JsBuiltins.SplitCount | script.js:101 | the number of tokens is the number of separators plus one |
| JsBuiltins.SplitPartsSeparatorFree | script.js:101 | no token contains a separator |
| JsBuiltins.JoinSplit | script.js:52 | joining the tokens with `x` gives back the lower-cased input |
| JsBuiltins.SplitJoin | script.js:52 | splitting a join of separator-free parts gives back the parts |
| JsBuiltins.SkipWhitespace | script.js:101 | `trim` (leading side) leaves a suffix that does not start with white space |
| JsBuiltins.DigitPrefix | script.js:101 | the digits `parseInt` reads form the longest all-digit prefix |
| JsBuiltins.ParseDigitToken | script.js:101 | `parseInt` of a digit token is NaN exactly when the token is empty, else its decimal value |
| JsBuiltins.ParseDigits | script.js:101 | a non-empty digit run followed by a non-digit parses to its value |
| JsBuiltins.ParseNegative | script.js:106 | a leading minus sign negates the value that follows, and NaN stays NaN |
| JsBuiltins.ParseIntToString | script.js:106 | `parseInt` reads back any integer written by `toString`, after white space and before a non-digit |
| JsBuiltins.DigitsValueOfDigits | script.js:252 | the decimal digits of `n` have value `n` |
| JsBuiltins.IntToStringSeparatorFree | script.js:52 | an integer's text contains no `x` |
| JsBuiltins.Pow10Monotone | script.js:129-131 | powers of ten grow with the exponent |
| JsBuiltins.DigitsLengthBounds | script.js:129-131 | a positive number with `d` digits lies in `[10^(d-1), 10^d)` |
| JsBuiltins.WidthIffRange | script.js:129-131 | a positive number has `d` digits if and only if it lies in `[10^(d-1), 10^d - 1]` |
| JsBuiltins.JsRem | script.js:162 | `%` truncates: the remainder is smaller than the divisor in magnitude, has the dividend's sign, and the dividend minus it is a multiple of the divisor |
| TermSpec.DigitCounts | script.js:101 | one digit count per token, at least one |
| TermSpec.ParseTokens | script.js:106 | each entry is `parseInt` of its token |
| TermSpec.UserLimits | script.js:104-107 | the limit list is non-empty exactly when the box is enabled and not blank, and is then the parsed tokens |
| TermSpec.Recycle | script.js:117 | term `j` uses entry `j` while it exists, else the last entry, and never a later entry |
| TermSpec.LimitAt | script.js:121-126 | no limit list means no limit for any term |
| TermSpec.RecycleStable | script.js:123 | every term from the last entry on uses that entry |
| TermSpec.NonEmpty | script.js:71 | a token is kept if and only if it is a non-empty token of the input |
| TermSpec.NonEmptyAppend | script.js:71 | the filter works token by token, keeping the input order |
| TermSpec.NonEmptyCount | script.js:71 | the term count is the token count minus the number of empty tokens |
| TermSpec.ValidateInputs | script.js:56-79 | rejects exactly a specification with a character other than a digit or `x`/`X` (or an empty one), or more than one non-empty term where the term count differs from the number of values |
| TermSpec.SplitPartsDigits | script.js:66 | the tokens of an accepted specification are digit strings |
| TermSpec.ValidatedDigitCounts | script.js:66-101 | on accepted input a digit count is NaN exactly for an empty token, and never negative |
| TermSpec.TrailingSeparatorAccepted | script.js:71-101 | `3x` passes validation for two values but gives the generator a NaN second digit count |
| TermSpec.PlaceholderEntry | script.js:46-49 | the entry is 9 for NaN, exists exactly for counts `d >= 0`, and for `d >= 1` is written with exactly `d` digits |
| TermSpec.NinesWidth | script.js:48 | `10^d - 1` has `d` digits |
| TermSpec.PlaceholderMaxima | script.js:43-49 | one placeholder entry per token |
| TermSpec.Placeholder | script.js:51-52 | a placeholder text exists exactly when every entry is an integer |
| TermSpec.PlaceholderReadsBack | script.js:43-52 | typing the placeholder into the limit field parses back to exactly the natural maxima |
| Bounds.Repair | script.js:141 | after the repair `min <= max`; `max` changes only when it was below `min` |
| Bounds.Resolve | script.js:128-141 | without a limit the range is `[10^(d-1), 10^d - 1]` (so `[1, 9]` for one digit, never below 1); with a limit it is `[1, limit]` (`[1, 1]` for a limit below 1); always `min <= max`; non-integral exactly without a limit and with a NaN or sub-1 digit count |
| Bounds.NaturalRangeIsDigitWidth | script.js:128-131 | without a limit, a value is in range if and only if it is positive and has exactly `d` digits |
| Bounds.PlaceholderIsNaturalMax | script.js:48 | the placeholder entry `10^d - 1` is exactly the largest value drawn for `d` digits without a limit |
| Bounds.Offset | script.js:142 | the random offset lies in `[0, max - min]` |
| Bounds.Draw | script.js:142-147 | without a limit the operand lies in `[min, max]`; with one it never exceeds it and is either in range or the limit itself |
| Bounds.DrawReachesEveryValue | script.js:142 | every value of the range is drawn for some random number |
| Bounds.TermValueMeaning | script.js:116-147 | a term's operand is positive with exactly `d` digits without a limit, lies in `[1, L]` under a limit `L >= 1`, and equals `L` under a limit `L < 1`; it is missing exactly without a limit and with a NaN or sub-1 digit count |
| Operations.Insert | script.js:159 | insertion keeps every element |
| Operations.InsertBounded | script.js:159 | insertion keeps a common upper bound |
| Operations.InsertDescending | script.js:159 | insertion keeps a descending list descending |
| Operations.SortDescending | script.js:159 | the sort result is descending and a permutation of its input |
| Operations.SortedLength | script.js:159 | the sort keeps the length |
| Operations.HeadIsMaximum | script.js:159 | the head of a descending list is its maximum |
| Operations.DescendingPermutationUnique | script.js:159 | any descending permutation equals the sort result, so the comparator fixes the order |
| Operations.AddFromIsSum | script.js:171 | the `+` fold from 0 is the sum |
| Operations.SubtractFromIsDifference | script.js:172 | the `-` fold is the first operand minus the sum of the rest |
| Operations.MultiplyFromIsProduct | script.js:173 | the `*` fold from 1 is the product |
| Operations.DivisionFixUp | script.js:161-164 | the fix-up keeps the number of operands |
| Operations.ApplyOperation | script.js:157-174 | the in-place operation stage and answer give the question `Solve` describes |
| Operations.ArrangeInPlace | script.js:157-168 | the array after the stage is the sorted (and for division fixed-up) arrangement; only division with fewer than two operands fails |
| Operations.SortInPlace | script.js:159 | the array afterwards holds its old contents in descending order |
| Operations.FixUpInPlace | script.js:161-164 | the three in-place writes give the division fix-up |
| Operations.ComputeAnswer | script.js:170-174 | the answer is the sum for addition and the product for multiplication; for subtraction it is the first operand minus the sum of the rest, failing exactly on no operands; for division it exists exactly for a non-zero divisor leaving no remainder, and then times the divisor gives the dividend |
| Operations.FixUpExact | script.js:161-164 | after the fix-up the divisor is non-zero and divides the dividend exactly |
| Operations.DivisionSolved | script.js:158-174 | division succeeds exactly with two or more operands. The divisor is then the second largest operand (1 if that was 0) and is non-zero. The dividend is the largest operand rounded toward zero to a multiple of the divisor, or twice the divisor when that rounding gives 0, and it is answer times divisor. Positions 2 on are the sorted rest, and positions 1 on are descending |
| Operations.MultipleRemainder | script.js:162 | a multiple of the divisor leaves remainder 0 |
| Operations.RoundedTowardZeroUnique | script.js:162-163 | at most one non-zero multiple of `b` has the sign of `a`, is no larger than `a` in magnitude and lies closer to `a` than the magnitude of `b`, so the dividend clauses fix the dividend |
| Operations.RoundDown | script.js:162-163 | `a - a % b` is 0 when `a` is smaller than `b` in magnitude, and otherwise `a` rounded toward zero to a multiple of `b` |
| Operations.FixUpDividend | script.js:161-164 | the fixed dividend is the largest operand rounded toward zero to a multiple of the divisor, or twice the divisor when the operand is smaller in magnitude than the divisor |
| Operations.DivisionRoundsDividend | script.js:158-174 | drawn operands 7 and 86 give the question `84 ÷ 7 = 12` |
| Operations.FixUpShape | script.js:159-164 | the fix-up sets the divisor to the second largest operand (1 if that was 0), leaves positions 2 on as sorted, and keeps positions 1 on descending |
| Operations.DivisionNonNegative | script.js:158-174 | on non-negative operands the dividend is positive and at least the divisor, and the answer is a positive integer. A positive largest operand `a` becomes a dividend in `(a - divisor, a]`, and all-zero operands become `2 ÷ 1` |
| Operations.FixUpNonNegative | script.js:161-164 | for `a >= b >= 0` the fixed dividend is at least the fixed divisor, which is positive |
| Operations.SubtractionSolved | script.js:166-172 | subtraction fails exactly on no operands; otherwise the operands come out descending and a permutation of the drawn ones, the answer is the first minus the rest, and it is non-negative for two operands |
| Operations.SubtractionOfThreeCanBeNegative | script.js:172 | `[5, 4, 3]` answers `-2` |
| Operations.AdditionSolved | script.js:171 | addition keeps the order and answers the sum |
| Operations.MultiplicationSolved | script.js:173 | multiplication keeps the order and answers the product |
| Generation.LoopCount | script.js:112 | a `for` loop bound runs its value times, or never for NaN or a bound of 0 or below |
| Generation.Integers | script.js:113-154 | the operands are all integers exactly when none is missing, and are then those values |
| Generation.DrawNumbers | script.js:115-155 | the inner loop pushes, for each term, that term's operand |
| Generation.DrawTerm | script.js:116-147 | one term's digit count, limit, bounds, draw and clamp give that term's operand |
| Generation.GenerateArithmeticTable | script.js:83-218 | the generator returns the batch `Batch` describes: rejected input, the first failing question, or every question in order |
| Generation.GenerateQuestion | script.js:113-217 | one outer iteration gives that iteration's question, or the error that stops the batch |
| Generation.QuestionsOfStep | script.js:112-218 | each outer iteration appends its question to those before it, or stops the batch |
| Generation.FailureStops | script.js:112-218 | once a question fails the batch fails with that error |
| Generation.BatchQuestions | script.js:112-218 | a completed batch has one question per outer iteration, each the question drawn from that iteration's random numbers |
| Generation.QuestionsNeverInvalid | script.js:84 | the question loop never reports rejected input |
| Generation.BatchRejectsExactlyInvalid | script.js:84 | generation reports rejected input exactly when validation fails |
| Generation.QuestionMeaning | script.js:113-217 | each question keeps its operation. Its operands are the terms' draws after the operation stage. Its text is laid out from the final operands, and it satisfies its operation's guarantees. For division these are the divisor (the second largest operand, or 1), the dividend's relation to the largest drawn operand, the sorted remaining operands from position 2 on, and descending order from position 1 |
| Generation.SolvedSatisfies | script.js:158-174 | whatever the operation, a question the operation stage completes satisfies that operation's guarantees, which fix every stored operand and the answer |
| Generation.SubtractionWithoutTermsFails | script.js:172 | subtraction with no terms stops the batch at the first question |
| Layout.Repeat | script.js:256-259 | `k` copies of a string have `k` times its length |
| Layout.RepeatAppend | script.js:258 | one more copy appended gives `k + 1` copies |
| Layout.PadNumber | script.js:253-261 | the padding loop writes `diff` phantoms (none when `diff <= 0`) before the number |
| Layout.MaxLength | script.js:248 | the longest length is at least every length |
| Layout.MaxLengthAttained | script.js:248 | the longest length is the length of one of the numbers, so the widest row gets no phantom |
| Layout.Strings | script.js:251-252 | one text per number |
| Layout.PaddedRows | script.js:251-262 | one padded row per text |
| Layout.Rows | script.js:251-262 | one padded row per number |
| Layout.PadAll | script.js:251-262 | the padding map gives each text padded to the longest width, in order |
| Layout.LayOutRows | script.js:264-271 | the content loop breaks every row but the last and underlines the last with the operator |
| Layout.FormatTraditional | script.js:246-273 | the two loops produce the stacked layout: padded rows in order, all but the last followed by a line break, the last underlined with the operator |
| Layout.StripPadding | script.js:255-261 | a padded row reads back as its phantom count and the number's text |
| Layout.IntToStringStart | script.js:252 | a number's text never starts with a backslash |
| Layout.RowsAligned | script.js:248-262 | row `k` is exactly `maxLength - length` phantoms followed by the `k`-th number's text |
| Layout.StackedAppend | script.js:264-271 | stacking two blocks of rows stacks them one after the other |
| Layout.RowPosition | script.js:264-271 | every row but the last sits after the rows before it and ends in a line break; only the last row is underlined |
| Layout.JoinWithSplits | script.js:186 | the one-line layout lists the operands in order |
| Layout.FormatQuestion | script.js:181-215 | the `switch` produces the question text, calling `formatTraditional` for the stacked layout |

## Left out

- The DOM is not modelled: form reads, error messages, table and cell construction, the print-style block and the initialization handler. They are browser plumbing. The form values are fields of `Generation.Config`.
- `sessionStorage`, `JSON`, `generateAnswerKey`, `MathJax.typesetPromise()` and the `solutionSpace` heights are not modelled. They are I/O, browser APIs or fixed markup.
- The decimal option (`toFixed`, `parseFloat`) is left out. It is floating-point arithmetic. The model takes the integer path and its division fix-up.
- JavaScript numbers are doubles. The model uses unbounded integers, so it matches only below 2^53. `toString` switches to exponent form from 10^21, which is also not modelled.
- `toLowerCase` is modelled only as far as splitting sees it: `x` and `X` both separate tokens. Other Unicode case mappings do not change the digits or the separators.
- `parseInt` without a radix (`script.js:43`) is modelled like `parseInt(s, 10)`. After splitting on `x` a token cannot carry a `0x` prefix.
- Placeholder text is not written to the input element.
- Bounds.Resolve: bounds from a digit count below 1 (`10^-1 = 0.1`, ...) or from NaN are collapsed to `NonInteger`. The fractional or NaN operands the source would draw from them are not followed.
- Bounds.TermValueMeaning: the non-integer operands above are missing values in the model.
- Generation.QuestionMeaning: a missing operand stops the batch with `NotAnInteger`, where the source would carry on with NaN or fractional values.
- Operations.DivisionSolved: division with fewer than two operands stops with `NotAnInteger`. The source computes with `undefined` and records a NaN question.
- Operations.SubtractionSolved: subtraction of no operands stops with `EmptyReduce`. In the source `reduce` throws a TypeError, which also aborts the batch.
- TermSpec.PlaceholderEntry: a negative digit count gives a fractional placeholder entry in the source. The model gives no entry, and `TermSpec.Placeholder` then gives no text.
- Operations.SortInPlace: `Array.prototype.sort` is a library call. It is modelled by its result, the unique descending permutation, not by the engine's algorithm.
- Layout.MaxLength: `Math.max` of no lengths (`-Infinity`) is not modelled. `formatTraditional` with no numbers never uses it, and the model skips it likewise.
