# Dice-notation evaluator

A Dafny model of the dice-notation evaluator of a browser dice roller
(`utils/diceRolling.ts`): `rollDie`, `rollDieMTimes`, the `parseInt` wrapper around
`Number`, `parseRoll` and `rollExpression`. An expression such as `"2d6+3"` is split
on `+`, each portion is trimmed, a portion containing `d` is rolled through the
regular expression `/(\d+)d(\d+)/`, any other portion is added when `Number` reads a
nonzero value from it, and everything else adds 0.

`Math.random()` is an explicit stream: a function from positions to exact fractions
`num / den` with `0 <= num < den`. Every operation that rolls takes the position of
its first draw and returns, in a `Rolled(value, next)` pair, the position after its
last one, so the order in which draws are consumed is part of the model.

The usual reading of NdM notation is a face in [1, N] per die, but
`Math.ceil(random * N)` is 0 when `Math.random()` returns exactly 0; the model follows
the code, so a face lies in [0, N] and is 0 exactly when the draw is 0 or the die has
no sides (`RollDieRange`), and the [M, M·N] bound of `rollDieMTimes` is proved under
the hypothesis that none of its draws is 0.

Files:

- `wrappers.dfy` — `Option`.
- `js_text.dfy` (module `JsText`) — the JavaScript built-ins the evaluator relies on:
  `split` with a one-character separator, `trim`, the class `\d`, and `Number` on
  decimal integers.
- `roll_pattern.dfy` (module `RollPattern`) — `/(\d+)d(\d+)/.exec`, as the engine's
  scan over start positions, proved against a declarative leftmost-longest reading.
- `dice_rolling.dfy` (module `DiceRolling`) — `rollDie`, the `rollDieMTimes` loop
  (a method with loop invariants, proved against the `Rolls`/`Sum` specification) and
  `parseRoll`.
- `dice_expression.dfy` (module `DiceExpression`) — `rollExpression` as a `reduce`
  over the trimmed portions, with its algebra (`+` adds, empty portions add 0,
  expressions without `d` draw nothing) and its bounds.
- `dice_examples.dfy` (module `DiceExamples`) — worked inputs: `"3"`, `"5+-3"`,
  `"abc"`, `"d6"`, `"2d"`, `"2d6+1"`, `"2d6++3"`, `"12d6"`.

## Model

| member | source | states |
|---|---|---|
| DiceRolling.RollDie | utils/diceRolling.ts:1-4 | defined as `Math.ceil(random * N)` on the exact fraction num/den; characterised by `RollDieCeiling`, `RollDieRange` and `RollDieNegativeSides` |
| DiceRolling.RollDieCeiling | utils/diceRolling.ts:1-4 | the face is the ceiling of r·N: (v-1)·den < num·N <= v·den |
| DiceRolling.RollDieRange | utils/diceRolling.ts:1-4 | for N >= 0 the face lies in [0, N], and it is 0 exactly when N = 0 or the random value is 0 |
| DiceRolling.RollDieNegativeSides | utils/diceRolling.ts:1-4 | for N < 0 the result lies in [N + 1, 0] |
| DiceRolling.CeilDivBounds | utils/diceRolling.ts:3 | `Math.ceil` of a quotient a/b: the integer c with (c-1)·b < a <= c·b |
| DiceRolling.RollDieMTimes | utils/diceRolling.ts:6-12 | the loop's sum is the sum of the faces of max(M, 0) dice drawn in order from the stream, it consumes exactly max(M, 0) draws, and for M <= 0 it returns 0 with no draw |
| DiceRolling.Rolls | utils/diceRolling.ts:8-10 | the loop rolls max(M, 0) dice |
| DiceRolling.RollsAt | utils/diceRolling.ts:8-10 | the i-th die is rolled with the i-th random value from the start position |
| DiceRolling.SumRollsStep | utils/diceRolling.ts:9 | each iteration adds one more face to the sum |
| DiceRolling.SumBounds | utils/diceRolling.ts:7-11 | a sum of k values in [lo, hi] lies in [k·lo, k·hi] |
| DiceRolling.RollsBounds | utils/diceRolling.ts:6-12 | with N >= 0 sides the total of M dice lies in [0, M·N] |
| DiceRolling.RollsBoundsNonZero | utils/diceRolling.ts:6-12 | when no draw is 0 and N >= 1, the total of M >= 0 dice lies in [M, M·N] |
| DiceRolling.MatchedCount | utils/diceRolling.ts:22-23 | `parseInt(M)` of the count group is its decimal value |
| DiceRolling.MatchedSides | utils/diceRolling.ts:22-23 | `parseInt(N)` of the sides group is its decimal value |
| DiceRolling.ParseRoll | utils/diceRolling.ts:18-24 | defined as: no match gives 0 with no draw, otherwise the loop of `rollDieMTimes` on the two groups read by `Number`; characterised by `ParseRollNoMatch`, `ParseRollLeftmost`, `ParseRollOfMatch` and `ParseRollBounds` |
| DiceRolling.ParseRollNoMatch | utils/diceRolling.ts:19-21 | without digits-`d`-digits in the text, `parseRoll` gives 0 and draws nothing |
| DiceRolling.ParseRollLeftmost | utils/diceRolling.ts:19-23 | for the leftmost occurrence with the longest sides run, `parseRoll` rolls exactly its count and sides and draws count values |
| DiceRolling.ParseRollOfMatch | utils/diceRolling.ts:19-23 | text before and after the match does not change the roll |
| DiceRolling.MatchedOfMatch | utils/diceRolling.ts:19-23 | the matched substring on its own yields the same count and sides |
| DiceRolling.ParseRollOfSlice | utils/diceRolling.ts:18-24 | white space before and after a text does not change its roll |
| DiceRolling.ParseRollTrim | utils/diceRolling.ts:18-24 | `parseRoll` of the trimmed text is `parseRoll` of the text |
| DiceRolling.ParseRollBounds | utils/diceRolling.ts:18-24 | the roll draws count values and totals between 0 and count·sides, and at least count when no draw is 0 and sides >= 1 |
| RollPattern.DigitRunEnd | utils/diceRolling.ts:19 | `\d+` is greedy: the run ends at the first non-digit |
| RollPattern.CountText | utils/diceRolling.ts:19-22 | the count group `M` of a match is a nonempty digit string |
| RollPattern.SidesText | utils/diceRolling.ts:19-22 | the sides group `N` of a match is a nonempty digit string |
| RollPattern.MatchAt | utils/diceRolling.ts:19-20 | an attempt at a start position succeeds with an occurrence of digits-`d`-digits whose sides run is maximal, and fails only when none starts there |
| RollPattern.ExecFrom | utils/diceRolling.ts:20 | the scan returns the first start position with an occurrence, and none when no occurrence starts at or after it |
| RollPattern.Exec | utils/diceRolling.ts:19-20 | defined as the engine scan from position 0; characterised in both directions by `ExecSpec` and `ExecLeftmost` |
| RollPattern.ExecSpec | utils/diceRolling.ts:19-21 | `exec` finds a match exactly when the text holds digits-`d`-digits; the match starts leftmost and its sides group is the longest at that `d` |
| RollPattern.ExecLeftmost | utils/diceRolling.ts:19-20 | conversely, the leftmost occurrence with the longest sides run is the match |
| RollPattern.RollAtOfSlice | utils/diceRolling.ts:19 | in a text padded with white space, every occurrence of digits-`d`-digits lies in the unpadded middle, and each occurrence of the middle is one of the whole, shifted by the padding |
| RollPattern.ExecOfSliceNone | utils/diceRolling.ts:19-21 | `exec` fails on a padded text exactly when it fails on its middle |
| RollPattern.ExecOfSliceSome | utils/diceRolling.ts:19-20 | the match in the middle is the match in the padded text, shifted by the padding |
| RollPattern.ExecOfSlice | utils/diceRolling.ts:19-22 | a padded text and its middle both match or both fail, with the same count and sides groups |
| RollPattern.MatchAtGreedy | utils/diceRolling.ts:19 | no occurrence at the same `d` has a longer sides run |
| RollPattern.RollAtUniqueD | utils/diceRolling.ts:19 | the start of an occurrence fixes where its `d` is |
| RollPattern.ExecCountIsWholeRun | utils/diceRolling.ts:19-22 | the count group is the whole digit run before the `d`, never a suffix of it |
| RollPattern.ExecOfMatch | utils/diceRolling.ts:19-20 | the matched substring on its own is matched in full with the same groups |
| JsText.Split | utils/diceRolling.ts:44 | `split('+')` yields at least one piece, even for the empty text |
| JsText.SplitPiecesFree | utils/diceRolling.ts:44 | no piece of `split` holds the separator |
| JsText.JoinSplit | utils/diceRolling.ts:44 | joining the pieces of `split` gives the original text back |
| JsText.SplitJoin | utils/diceRolling.ts:44 | separator-free pieces joined and split again are the same pieces |
| JsText.SplitWithoutSeparator | utils/diceRolling.ts:44 | a text without `+` is one piece |
| JsText.SplitAppend | utils/diceRolling.ts:44 | the pieces of `a + "+" + b` are the pieces of `a` followed by those of `b` |
| JsText.JoinAppend | utils/diceRolling.ts:44 | joining two runs of pieces with a separator between them is joining them all |
| JsText.Trim | utils/diceRolling.ts:44 | defined as the text between `SkipLeading` and `SkipTrailing`; characterised by `TrimSpec`, `TrimBorderless` and `TrimIdempotent` |
| JsText.TrimSpec | utils/diceRolling.ts:44 | `trim` keeps a contiguous middle of the text, drops only white space at both ends, and leaves no white space at either end |
| JsText.SkipLeading | utils/diceRolling.ts:44 | the white space `trim` removes at the start is the longest all-white-space prefix |
| JsText.SkipTrailing | utils/diceRolling.ts:44 | the white space `trim` removes at the end is the longest all-white-space suffix |
| JsText.TrimBorderless | utils/diceRolling.ts:44 | a text with no white space at its ends is unchanged by `trim` |
| JsText.TrimIdempotent | utils/diceRolling.ts:44 | trimming twice is trimming once |
| JsText.InTrim | utils/diceRolling.ts:44 | `trim` keeps every character that is not white space |
| JsText.NumberOfTrimmed | utils/diceRolling.ts:14-16 | defined as: empty gives 0, an optionally signed nonempty digit run gives its value, anything else NaN; characterised by `NumberOfDigits`, `NumberNegative` and `NumberOfDecimal` |
| JsText.Number | utils/diceRolling.ts:14-16 | defined as `NumberOfTrimmed` of the trimmed text; read back from every integer's decimal text by `NumberOfDecimal` |
| JsText.NumberOfDigits | utils/diceRolling.ts:14-16 | `parseInt` of a nonempty digit string is its decimal value |
| JsText.NumberOfDecimal | utils/diceRolling.ts:14-16 | `Number` reads back every integer, negative ones included, from its decimal text: `Number(IntToDecimal(n)) == Some(n)` |
| JsText.Decimal | utils/diceRolling.ts:14-16 | the decimal spelling of a natural number is a nonempty digit string |
| JsText.DecimalValue | utils/diceRolling.ts:14-16 | the digits of the decimal spelling of n are worth n |
| JsText.NumberNegative | utils/diceRolling.ts:14-16 | a leading minus negates the digits that follow |
| JsText.DigitsValueLeadingZero | utils/diceRolling.ts:14-16 | leading zeros do not change the value (`"06"` is 6) |
| DiceExpression.Contribution | utils/diceRolling.ts:47-53 | defined as: a portion with `d` goes to `parseRoll`, any other adds its `LiteralValue` with no draw; characterised by `ContributionMalformedDice`, `ContributionEmpty` and `ContributionBounds` |
| DiceExpression.LiteralValue | utils/diceRolling.ts:49-53 | a portion without `d` adds its `Number` value, or 0 when that is NaN |
| DiceExpression.ContributionMalformedDice | utils/diceRolling.ts:47-48 | a portion with a `d` but no digits-`d`-digits goes to `parseRoll` and adds 0 |
| DiceExpression.Reduce | utils/diceRolling.ts:46-54 | defined as the left-to-right fold threading the sum and the stream position; characterised by `ReduceFromSum`, `ReduceAppend`, `ReduceNeutral`, `ReduceWithoutDice` and `ReduceBounds` |
| DiceExpression.ReduceFromSum | utils/diceRolling.ts:46-54 | the fold only adds to its initial sum |
| DiceExpression.ReduceAppend | utils/diceRolling.ts:46-54 | folding two runs of portions is folding the second from the first's total and stream position |
| DiceExpression.TrimAll | utils/diceRolling.ts:44 | `map((s) => s.trim())` keeps one portion per piece |
| DiceExpression.TrimAllAt | utils/diceRolling.ts:44 | the k-th portion is the k-th piece trimmed |
| DiceExpression.TrimAllAppend | utils/diceRolling.ts:44 | trimming every piece commutes with concatenating runs of pieces |
| DiceExpression.Portions | utils/diceRolling.ts:44 | defined as the trimmed pieces of `split('+')`; characterised by `PortionsAppend`, `PortionsSingle` and `PortionsLeadingPlus` |
| DiceExpression.PortionsAppend | utils/diceRolling.ts:44 | the portions of `a + "+" + b` are those of `a` followed by those of `b` |
| DiceExpression.PortionsSingle | utils/diceRolling.ts:44 | an expression without `+` is one portion, its trimmed self |
| DiceExpression.PortionsLeadingPlus | utils/diceRolling.ts:44 | a leading `+` gives an empty first portion |
| DiceExpression.RollExpression | utils/diceRolling.ts:43-57 | defined as the fold of `Contribution` over the portions from sum 0; determined by `RollExpressionSingle` and `RollExpressionPlus`, bounded by `RollExpressionBounds` |
| DiceExpression.RollExpressionSingle | utils/diceRolling.ts:43-57 | an expression without `+` rolls as its one trimmed portion |
| DiceExpression.RollExpressionLiteral | utils/diceRolling.ts:49-53 | an expression with no `+` and no `d` adds its literal value (its `Number`, which ignores surrounding white space, when truthy, else 0) and draws nothing |
| DiceExpression.RollExpressionDigits | utils/diceRolling.ts:49-53 | a digit string is a constant: its decimal value, no draw |
| DiceExpression.RollExpressionDice | utils/diceRolling.ts:44-48 | an expression without `+` holding `d` rolls as one `parseRoll` of the expression itself: the `trim` before it does not change the roll |
| DiceExpression.RollExpressionPlus | utils/diceRolling.ts:43-57 | the roll of `a + "+" + b` is the roll of `a` plus the roll of `b`, `b` drawing where `a` stopped |
| DiceExpression.RollExpressionEmpty | utils/diceRolling.ts:43-57 | the empty expression is 0 with no draw |
| DiceExpression.ContributionEmpty | utils/diceRolling.ts:47-53 | an empty portion adds 0 and draws nothing |
| DiceExpression.ReduceNeutral | utils/diceRolling.ts:46-54 | a portion that adds 0 without drawing can be dropped from the fold |
| DiceExpression.RollExpressionEmptyPortion | utils/diceRolling.ts:44-54 | an empty portion (`"2d6++3"`) adds nothing and draws nothing |
| DiceExpression.ReduceWithoutDice | utils/diceRolling.ts:46-54 | a fold over portions that only add literals totals those literals and draws nothing |
| DiceExpression.InJoin | utils/diceRolling.ts:44 | a character of a piece is a character of the joined text |
| DiceExpression.InPortion | utils/diceRolling.ts:44 | a character of a trimmed portion is a character of the expression |
| DiceExpression.RollExpressionWithoutDice | utils/diceRolling.ts:43-57 | an expression without `d` draws nothing and totals the literal values of its portions, whatever the stream |
| DiceExpression.ContributionBounds | utils/diceRolling.ts:47-53 | each portion adds a value within its range |
| DiceExpression.ReduceBounds | utils/diceRolling.ts:46-54 | the fold's total lies within the sum of the portions' ranges |
| DiceExpression.RollExpressionBounds | utils/diceRolling.ts:43-57 | every total lies between the sums of the portions' lowest and highest values (dice at 0, or at 1 each when no draw is 0, up to count·sides) |
| DiceExamples.ConstantExpression | utils/diceRolling.ts:43-57 | `"3"` is always 3 with no draw |
| DiceExamples.NumberMinusThree | utils/diceRolling.ts:14-16 | `Number("-3")` is -3 |
| DiceExamples.NegativeThree | utils/diceRolling.ts:43-57 | `"-3"` is always -3 with no draw |
| DiceExamples.NegativeLiteralExpression | utils/diceRolling.ts:43-57 | `"5+-3"` is always 2 with no draw |
| DiceExamples.MalformedRolls | utils/diceRolling.ts:19-21 | `parseRoll` of `"abc"`, `"d6"` and `"2d"` is 0 with no draw |
| DiceExamples.DoublePlus | utils/diceRolling.ts:44-54 | `"2d6++3"` rolls exactly as `"2d6+3"` |
| DiceExamples.MatchTwoDiceSix | utils/diceRolling.ts:19-23 | `"2d6"` matches in full with count 2 and sides 6 |
| DiceExamples.TwoDiceSix | utils/diceRolling.ts:18-24 | when neither of its two draws is 0, `"2d6"` totals between 2 and 12 |
| DiceExamples.TwoDiceSixPlusOne | utils/diceRolling.ts:43-57 | when neither of its two draws is 0, `"2d6+1"` totals between 3 and 13 |
| DiceExamples.DigitsTwelve | utils/diceRolling.ts:14-16 | `"12"` reads as 12 |
| DiceExamples.TwelveDice | utils/diceRolling.ts:18-24 | `"12d6"` rolls twelve six-sided dice (the whole digit run) and draws twelve values |

## Left out

- `injectSounds` and `playDiceSound` (utils/diceRolling.ts:26-41): creating a DOM audio element and playing it are browser I/O.
- The floating-point product in `rollDie`: `Math.ceil(random * N)` is computed on exact fractions, so a product that IEEE rounding would carry across an integer is not modelled; the stream of `Math.random()` values is a parameter, not a generator.
- Non-integer counts: `rollDieMTimes` is modelled for integer `M` and `N`, the `Number` of a digit group; a fractional `M` passed directly is not.
- `Number` beyond optionally signed decimal integers: hexadecimal, binary and octal prefixes, exponents, decimal points, `Infinity` and `-Infinity` read as NaN in the model, so a portion such as `"2.5"` or `"1e3"` adds 0 here while the source adds its value. Values are unbounded integers, so digit strings beyond 2^53, which `Number` rounds, keep their exact value here. A digit group whose value exceeds `Number.MAX_VALUE` (about 1.8·10^308) reads as `Infinity` in the source, whatever its length (leading zeros count for nothing): as sides it makes each face `Infinity`, or `NaN` when the draw is 0 (`0 * Infinity`), and as a count it makes the loop of `rollDieMTimes` never end; a count above 2^53 never ends either, because `i++` stops growing at 2^53. In all these cases the model returns the exact finite sum.
- Rounding of sums: the source's running sums (utils/diceRolling.ts:9, :48 and :50) are doubles and round once they pass 2^53, so `"9007199254740992+1"` gives 9007199254740992 there; the model's sums are exact unbounded integers and give 9007199254740993.
- Strings are sequences of Unicode scalar values rather than UTF-16 code units; no character outside the Basic Multilingual Plane affects `split('+')`, `trim` or `\d`.
- The Monte Carlo sampler, its frequency reducer and their memo caches are not part of this model; neither are the tween animation hook, the local-storage hook and the build configuration.
