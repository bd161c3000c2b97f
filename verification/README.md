# Counter widget — a Dafny model

This project models the logic of the `Counter` React component: a counter
value and a step value, both JavaScript numbers. The component starts at
counter 0 and step 1. The `+` button adds the step to the counter and the `-`
button subtracts it. A change of the step input stores `parseInt` of the new
text as the step. The counter display gets the class name `"green"` from 100
up, `"red"` from -100 down, and none in between.

The model is functional. A `State` record holds the two numbers. Each user
event is a pure transition, and a trace of events is handled by `Run`.

- `js_number.dfy` (module `JsNumber`) holds the number type `Num`, which is an
  integer `Int(n)` or `Invalid`. `Invalid` stands for NaN, which `parseInt`
  yields on text without digits. The module also defines JavaScript `+` and
  `-` (NaN absorbs) and `>=` and `<=` against a literal (false on NaN).
- `js_text.dfy` (module `JsText`) holds `parseInt` called without a radix,
  as in section 19.2.5 of ECMA-262. It skips leading white space, reads an
  optional sign, treats a `0x`/`0X` prefix as hexadecimal, and reads the
  longest run of digits; an empty run gives NaN. The module also renders an
  integer as text, as `String(n)` does for integers of magnitude below 10^21.
- `counter.dfy` (module `Counter`) holds the component: `State`, `Mount`,
  the three handlers, the class name, the texts shown, and the event traces
  with their lemmas.
- `counter_scenarios.dfy` (module `CounterScenarios`) replays the event
  traces of the component's behavioural tests on the model.

The handlers use `prev += inputValue` and `prev -= inputValue`. The step is
always a number, either the literal `1` or a result of `parseInt`, so `+=` is
numeric addition and never string concatenation. `Increment` and `Decrement`
model it as such.

Three consequences of the code are worth spelling out:
- `parseInt` on its own would read a `0x` or `0X` prefix as hexadecimal,
  skip leading white space and accept a `+` sign, and `ParseInt` models all
  of that. The step input is `type="number"`, though, and its value
  sanitization (HTML standard, section 4.10.5.1.12) hands the change handler
  only `""` or a valid floating-point number such as `"5"`, `"-3"`, `"5.7"`
  or `"1e3"`. So typing `"0x1A"` hands the handler `""`, and the step
  becomes NaN, not 26, as `SetStepWithoutDigit` states for the empty text.
- In the class-name test (`src/Counter/__test__/Counter.test.js:116-141`),
  the step is 50. Three `+` clicks give 150, two `-` clicks bring the counter
  back to 50, and four more give -150. The scenario lemmas state each of
  these counter values along with its class name.
- The step input is `type="number"`. Its value sanitization (HTML standard,
  section 4.10.5.1.12) empties any text that is not a valid floating-point
  number, such as `"NaN"`. So a NaN step shows as the empty text.

## Model

| member | source | states |
|---|---|---|
| Counter.Increment | src/Counter/Counter.js:33 | The `+` button adds the step to an integer counter and leaves the step alone. The counter stays an integer exactly when both counter and step are integers; otherwise it becomes NaN. |
| Counter.Decrement | src/Counter/Counter.js:20 | The `-` button subtracts the step from an integer counter and leaves the step alone. The counter stays an integer exactly when both are integers; otherwise it becomes NaN. |
| Counter.SetStep | src/Counter/Counter.js:28 | A change of the step input never touches the counter. It replaces the step with `parseInt` of the text. |
| Counter.Apply | src/Counter/Counter.js:18-36 | A click on `+` or `-` changes only the counter, by JavaScript `+` or `-` with the step. A change of the step input changes only the step, to `parseInt` of its text. |
| Counter.Run | src/Counter/Counter.js:18-36 | Events are handled one after the other. A trace of clicks alone never changes the step, and a NaN counter stays NaN under any trace. |
| Counter.CounterText | src/Counter/Counter.js:16 | The counter display reads back through `parseInt` as the counter it shows. It shows `NaN` exactly when the counter is NaN. |
| Counter.InputText | src/Counter/Counter.js:27 | The text the step input shows, when rendered from the step, parses back to the step the component holds, for integer and NaN steps alike. |
| Counter.ClassName | src/Counter/Counter.js:12-14 | The class is `"green"` iff the counter is an integer >= 100, and `"red"` iff it is an integer <= -100. It is `""` iff the counter is NaN or strictly between -100 and 100. The three cases are exclusive because the strings differ. |
| Counter.IncrementDecrementCancel | src/Counter/Counter.js:20-33 | With an integer step, `+` then `-` returns the exact state it started from, and so does `-` then `+`. This holds even with a NaN counter. |
| Counter.RunAppend | src/Counter/Counter.js:18-36 | Handling trace `a` and then trace `b` is the same as handling `a + b`. Events are handled one at a time, in order. |
| Counter.RunClicks | src/Counter/Counter.js:18-36 | A trace of clicks never changes the step. It moves an integer counter by (number of `+` minus number of `-`) times an integer step. After at least one click, a NaN counter or a NaN step leaves the counter NaN. |
| Counter.RunClicksOrderIrrelevant | src/Counter/__test__/Counter.test.js:90-114 | Two click traces with the same clicks in any order end in the same state. |
| Counter.RunPlus | src/Counter/Counter.js:33 | `n` clicks on `+` add `n` times the step to an integer counter. |
| Counter.RunMinus | src/Counter/Counter.js:20 | `n` clicks on `-` subtract `n` times the step from an integer counter. |
| Counter.MountThenPlus | src/Counter/Counter.js:5-6 | From the initial state (counter 0, step 1), `n` clicks on `+` make the counter `n`, and the display shows the decimal text of `n`. |
| Counter.RunStep | src/Counter/Counter.js:28 | After any trace, the step is the parse of the last text entered, or the initial step if there was none. `StepAfter` gives this as an independent definition read from the end of the trace. |
| Counter.InvalidCounterStays | src/Counter/Counter.js:13-33 | Once the counter is NaN it stays NaN under every later event. Its class name is `""` and the display shows `NaN`. |
| Counter.SetStepToIntText | src/Counter/Counter.js:28 | Entering the decimal text of any integer `n` sets the step to `n` and leaves the counter as it was. |
| Counter.SetStepWithoutDigit | src/Counter/Counter.js:28 | Entering a text with no decimal digit sets the step to NaN and leaves the counter as it was. This includes the empty text a cleared number input sends. |
| Counter.EnterStepThenClick | src/Counter/__test__/Counter.test.js:70-88 | Entering the text of `n` and then clicking moves an integer counter by `n` times the net number of `+` clicks. The step ends as `n`. |
| JsText.ParseInt | src/Counter/Counter.js:28 | `parseInt` without a radix yields a number, rather than NaN, only for a text that holds a decimal digit. |
| JsText.ParseIntToTextRoundTrip | src/Counter/Counter.js:28 | `parseInt(String(n))` is `n` for every integer `n`, negative and zero included. |
| JsText.ParseIntReadsIntToText | src/Counter/Counter.js:28 | `parseInt` stops at the first non-digit after an integer's text, so `"12.7"` gives 12. The exception is `"0"` followed by `x` or `X`, which is read as a hexadecimal prefix. |
| JsText.ParseIntSkipsWhiteSpace | src/Counter/Counter.js:28 | Leading white space (any StrWhiteSpaceChar) does not change what `parseInt` yields. |
| JsText.ParseIntWithoutDigitIsInvalid | src/Counter/Counter.js:28 | A text with no decimal digit at all parses to NaN. |
| CounterScenarios.MountShowsZeroAndOne | src/Counter/__test__/Counter.test.js:22-30 | On mount, the display shows `0` with no class name and the step input shows `1`. |
| CounterScenarios.ChangeInputShowsFive | src/Counter/__test__/Counter.test.js:42-54 | After typing `5` in the step input, the input shows `5`. |
| CounterScenarios.OneClickFromMount | src/Counter/__test__/Counter.test.js:56-68 | One `+` click from mount shows `1`; one `-` click shows `-1`. |
| CounterScenarios.StepFiveThenOneClick | src/Counter/__test__/Counter.test.js:70-88 | With step `5`, one `+` click shows `5` and one `-` click shows `-5`. |
| CounterScenarios.StepTenFourPlusTwoMinus | src/Counter/__test__/Counter.test.js:96-105 | Step `10`, then four `+` and two `-`, leave the counter at 20 with the step still 10. |
| CounterScenarios.StepFiveOnePlusTwoMinus | src/Counter/__test__/Counter.test.js:107-113 | From counter 20 and step 10: step `5`, then one `+` and two `-`, leave the counter at 15 with the step 5. |
| CounterScenarios.AddThenSubtractShows | src/Counter/__test__/Counter.test.js:105-113 | The display shows `20` at the first checkpoint of that test and `15` at the end. |
| CounterScenarios.AddThenSubtractFromMount | src/Counter/__test__/Counter.test.js:90-114 | The whole trace of that test from mount ends with counter 15 and step 5, and the display shows `15`. |
| CounterScenarios.ClassNameAtFifty | src/Counter/__test__/Counter.test.js:124-126 | Step `50` and one `+` give counter 50 and no class name. |
| CounterScenarios.ClassNameAtHundred | src/Counter/__test__/Counter.test.js:127-128 | One more `+` gives 100, which is green. |
| CounterScenarios.ClassNameAtHundredFifty | src/Counter/__test__/Counter.test.js:129-130 | One more `+` gives 150, still green. |
| CounterScenarios.ClassNameBackAtFifty | src/Counter/__test__/Counter.test.js:132-134 | Two `-` bring the counter back to 50, with no class name. |
| CounterScenarios.ClassNameAtMinusHundredFifty | src/Counter/__test__/Counter.test.js:136-140 | Four more `-` give -150, which is red. |

## Left out

- Rendering, React `useState` and the DOM (src/Counter/Counter.js:7-38 apart from the expressions modelled): the header text "My Counter" and the button labels are static markup. React applies each functional state update to the latest state, and `Run` models this by handling events one at a time.
- The stylesheet import (src/Counter/Counter.js:2): it is pure styling.
- Counter.Increment: the counter is an unbounded integer. JavaScript numbers are IEEE-754 doubles, which lose precision beyond 2^53 and overflow to Infinity. Those effects are not modelled.
- Counter.Decrement: the same idealisation of doubles as unbounded integers.
- JsText.ParseIntToTextRoundTrip: `parseInt` returns a double. Digit runs beyond 2^53 are rounded, and very long ones give Infinity. The model returns the exact integer. `IntToText` writes every integer in plain decimal, while `String(n)` switches to exponent notation (`"1e+21"`) from 10^21 on.
- JsText.ParseIntReadsIntToText: the same rounding is not modelled.
- The `-0` that `parseInt("-0")` yields is modelled as 0. It renders as `0`, and `x + -0` and `x - -0` equal `x` for every integer `x`, so the counter cannot tell it from 0.
- The sanitization of the step input is not modelled on the way in: in the model any text can reach the change handler, while in the program a number input delivers only `""` or a valid floating-point number. `ParseInt` is total over all text, so every lemma about the handler also covers the texts the program can deliver.
- Counter.InputText: it is the text the input shows after a re-render from the step. React writes a new value into a controlled input only when it differs loosely from the current one, so after the user types `"05"` or `"5.0"` (step 5) the input keeps showing what was typed rather than `"5"`. That text still parses to the step, but the model does not track it.
