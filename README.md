# Calorie counter core in Dafny

This project models the core of `js/app.js`, the script behind a browser
calorie counter. The user adds entries to five sections (breakfast, lunch,
dinner, snacks, exercise), types calorie values and a daily budget, and
submits. The script then does the following:

- It cleans every value by deleting `+`, `-` and whitespace.
- It rejects values written in scientific notation (`\d+e\d+`, any case) with an alert.
- It sums each section.
- It reports `remaining = budget - consumed + burned`, labelled Surplus (zero included) or Deficit and shown as an absolute value.

Files and modules:

- `js_number.dfy` (`JsNumber`): the numbers of the calculation. A JavaScript number is an unbounded integer or `NaN`. `Number(...)` is modelled on cleaned strings. Decimal rendering is the number's text in a field id.
- `sanitizer.dfy` (`Sanitizer`): `cleanInputString` as a recursive filter. `isInvalidInput` is modelled as a search that returns the leftmost match with greedy digit runs. Both are proved against character-level definitions of the two regular expressions.
- `aggregate.dfy` (`Aggregate`): what one list sums to (`SumGroup`) and what one submission computes from its six lists (`Calculate`).
- `form.dfy` (`Form`): the page state as a class `CalorieForm`. It holds the group containers, the budget field, the output region, the `isError` flag and the log of alerts. The event handlers are its methods. `getCaloriesFromInputs` and `calculateCalories` keep the source's loops and early returns, and are proved against `SumGroup` and `Calculate`.

All six lists of a submission are summed, whatever has already failed. Each
failing list raises its own alert. This follows the code: line 71 maps over
all four meal lists, and lines 72-73 run unconditionally. So a submission
can raise up to six alerts, not only the first. Only the check at line 75
stops the calculation.

## Model

| member | source | states |
|---|---|---|
| Sanitizer.IsWs | js/app.js:23 | definition: the characters of ECMAScript's `\s` (white space and line terminators) |
| Sanitizer.IsStripped | js/app.js:23 | definition: the class `[+-\s]`, that is `+`, `-` and every `\s` character (the `-` next to `\s` is not a range) |
| Sanitizer.CleanInputString | js/app.js:22-25 | the result is no longer than the input and contains no `+`, `-` or whitespace character |
| Sanitizer.CleanAppend | js/app.js:22-25 | cleaning distributes over concatenation, so kept characters stay in their order |
| Sanitizer.CleanSingle | js/app.js:23-24 | a single character is deleted exactly when it is `+`, `-` or whitespace |
| Sanitizer.CleanCounts | js/app.js:22-25 | every `+`, `-` and whitespace character is deleted and every other character occurs as often as in the input |
| Sanitizer.CleanFixedIff | js/app.js:23-24 | a string is unchanged by cleaning if and only if it has no `+`, `-` or whitespace |
| Sanitizer.CleanIdempotent | js/app.js:23-24 | cleaning twice is cleaning once |
| Sanitizer.IsInvalidInput | js/app.js:32-35 | returns a match if and only if some substring is digits, `e`/`E`, digits; the match is that substring at its index, starts leftmost and is the longest from there |
| Sanitizer.SearchFromCorrect | js/app.js:33-34 | the search from a position finds nothing if and only if no match starts there or later, else the leftmost, longest one |
| Sanitizer.MatchAt | js/app.js:33-34 | definition: the pattern tried at one position, a greedy digit run, `e` or `E`, a greedy digit run; its meaning is proved in `Sanitizer.MatchAtCorrect` |
| Sanitizer.SearchFrom | js/app.js:33-34 | definition: the pattern tried at every position from the given one on, the first success wins; its meaning is proved in `Sanitizer.SearchFromCorrect` |
| Sanitizer.MatchAtCorrect | js/app.js:33-34 | trying the pattern at one position succeeds if and only if a match starts there, and yields the longest one (greedy `\d+`) |
| Sanitizer.DigitRunMax | js/app.js:33 | no run of digits from a position reaches past the greedy run |
| JsNumber.NumberOf | js/app.js:113 | `Number` of a cleaned value is finite exactly for digit strings, and 0 for the empty string |
| JsNumber.Add | js/app.js:113 | definition: `a + b` on integers, `NaN` as soon as one side is `NaN` |
| JsNumber.Sub | js/app.js:81 | definition: `a - b` on integers, `NaN` as soon as one side is `NaN` |
| JsNumber.Abs | js/app.js:86 | definition: `Math.abs`, the magnitude of an integer, `NaN` for `NaN` |
| JsNumber.AtLeastZero | js/app.js:84 | definition: `a >= 0`, false for `NaN` since every comparison with `NaN` is false |
| JsNumber.Decimal | js/app.js:42-50 | the rendered entry number is a non-empty digit string with no leading zero |
| JsNumber.NumberOfDecimal | js/app.js:42-50 | reading a rendered entry number back gives the number |
| JsNumber.DecimalInjective | js/app.js:42-50 | different entry numbers are rendered differently |
| Aggregate.SumGroup | js/app.js:101-116 | definition: the loop of `getCaloriesFromInputs`, summing cleaned values from 0 and stopping at the first value the check rejects with its matched text and index; its properties are the `SumGroup…` lemmas below |
| Aggregate.SumGroupTotalIff | js/app.js:101-116 | a list sums to a total if and only if every cleaned value passes the scientific-notation check |
| Aggregate.SumGroupInvalidIsFirst | js/app.js:104-112 | on failure, the alerted text is the leftmost match in the first invalid value, and every earlier value passed |
| Aggregate.SumGroupStopsAtInvalid | js/app.js:108-111 | once a value fails, the values after it do not change the outcome |
| Aggregate.SumGroupOfValid | js/app.js:102-115 | a list of passing values sums to the plain sum of their numbers, the empty string counting 0, or to `NaN` if one is not a number |
| Aggregate.SumOfValuesAppend | js/app.js:113 | the plain sum grows by the value of an appended entry |
| Aggregate.AlertText | js/app.js:109 | definition: the alerted string `Invalid Input: ` followed by the matched text |
| Aggregate.AllAlerts | js/app.js:71 | definition: the alerts raised while the `.map` sums the lists, one per failing list, in list order |
| Aggregate.Lists | js/app.js:71-73 | definition: the order in which a submission sums its lists: the four meals, then exercise, then the one-element budget list |
| Aggregate.Outcomes | js/app.js:71 | the `.map` gives one outcome per list, the outcome of summing that list |
| Aggregate.AlertsSnoc | js/app.js:71 | summing one more list adds exactly its alert, if any, and its failure, if any |
| Aggregate.ValidListSnoc | js/app.js:104-112 | a list passes exactly when its first part and its last value pass |
| Aggregate.PlainConsumedSnoc | js/app.js:80 | the plain meal total grows by the plain total of one more meal list |
| Aggregate.NumericPartsValid | js/app.js:106-108 | lists of numbers never trigger the scientific-notation alert |
| Aggregate.CountInvalid | js/app.js:71-73 | definition: the number of failing lists; related to the alerts by `Aggregate.AllAlertsCount` and `Aggregate.AllAlertsAt` |
| Aggregate.AllAlertsCount | js/app.js:71-73 | exactly one alert per failing list (the number of alerts is the number of failing lists), and none exactly when no list failed |
| Aggregate.AllAlertsAt | js/app.js:71-73 | the alert at position k is the alert of the (k+1)-th failing list: a failing list raises its own alert text, in the order the lists are summed |
| Aggregate.AllAlertsSnoc | js/app.js:71 | summing one more list appends its alert, if any, to the alerts so far |
| Aggregate.OutcomesSnoc | js/app.js:71 | mapping over one more list appends that list's outcome |
| Aggregate.ListsAlerts | js/app.js:71-73 | the alerts of the six lists are the meal alerts, then the exercise alert, then the budget alert |
| Aggregate.CalculateAlerts | js/app.js:71-73 | the alerts of a submission are those of its six lists, in summing order |
| Aggregate.ConsumedOfValid | js/app.js:80 | the reduced meal total is the plain sum of all meal values, or `NaN` |
| Aggregate.AllValidIff | js/app.js:71 | every meal list passes if and only if no meal sum failed |
| Aggregate.CalculateAbortsIffInvalid | js/app.js:60-77 | a submission aborts if and only if some value of the six lists fails, if and only if an alert was raised; there is exactly one alert per failing list, and the k-th alert is the alert text of the k-th failing list |
| Aggregate.Consumed | js/app.js:80 | definition: the reduce over the meal totals, from 0 with JavaScript `+`; proved in `Aggregate.ConsumedOfValid` |
| Aggregate.Classify | js/app.js:84 | definition: Surplus exactly when `remaining >= 0` holds, so zero is a Surplus and `NaN` a Deficit |
| Aggregate.Calculate | js/app.js:60-91 | definition: the four meal lists, the exercise list and the budget are all summed, the alerts collected in that order, and a report made only when none failed; its properties are the `Calculate…` lemmas |
| Aggregate.CalculateOfValid | js/app.js:79-91 | with all values passing: no alert, and the report holds budget, consumed, burned and `remaining = budget - consumed + burned` with its label and absolute value |
| Aggregate.CalculateOnNumbers | js/app.js:80-86 | with all values numeric and `remaining = budget - (sum of the meals) + exercise`: no alert, the report shows these totals, the label is Surplus exactly when `remaining >= 0` (zero is a Surplus) and the magnitude is its absolute value |
| Aggregate.RemainingOfFinite | js/app.js:81-84 | on finite totals the remainder is `budget - consumed + burned`, Surplus exactly when it is at least zero, shown as its absolute value |
| Aggregate.CalculateNaNPassThrough | js/app.js:81-86 | values that pass the check but that `NumberOf` does not read as numbers (such as `abc`) give no alert and a `NaN` Deficit |
| Aggregate.PlainTotalsOfNumeric | js/app.js:80-81 | on numeric lists the totals are the plain sums |
| Aggregate.ListsValidIff | js/app.js:71-73 | the six lists pass if and only if the meals, the exercise list and the budget pass |
| Aggregate.ListsNumericIff | js/app.js:71-73 | the six lists are numeric if and only if the meals, the exercise list and the budget are |
| Form.Group.Id | js/app.js:41 | definition: the dropdown value of a section, which is also its element id |
| Form.CaloriesValues | js/app.js:65-68 | the values of a container's `input[type=number]` fields, one per entry, in document order |
| Form.MealValues | js/app.js:65-67 | definition: the calorie values of breakfast, lunch, dinner and snacks, in that order, as the four `querySelectorAll` calls give them |
| Form.ReturnOf | js/app.js:111-115 | definition: what `getCaloriesFromInputs` returns: `null` for a failed list, else its total |
| Form.ReturnsOf | js/app.js:71 | the returns of the `.map`: one per outcome, each the return for that outcome |
| Form.FieldId | js/app.js:44-50 | definition: the id `<group>-<n>-name` or `<group>-<n>-calories`, with `n` in decimal |
| Form.NewEntry | js/app.js:43-52 | definition: the inserted pair of empty fields numbered `n`, with the ids of that number |
| Form.FieldIdInjective | js/app.js:44-50 | the id `<group>-<n>-name` / `<group>-<n>-calories` determines group, entry number and field |
| Form.WellNumberedSnoc | js/app.js:42-52 | appending the entry numbered count+1, with that number's ids, keeps a container numbered 1, 2, ... without gaps |
| Form.IdsDistinct | js/app.js:40-53 | in a well-numbered form no two fields share an id |
| Form.GroupIdInjective | js/app.js:41 | different sections have different ids |
| Form.SplitAtDash | js/app.js:44-50 | an id whose first part has no dash splits back into its parts |
| Form.ReduceCalories | js/app.js:80 | the reduce over the meal totals gives the consumed total of the submission |
| Form.CalorieForm.constructor | js/app.js:9-15 | the page as loaded: all containers empty, budget empty, output hidden, `isError` false |
| Form.CalorieForm.AddEntry | js/app.js:40-54 | appends exactly one entry to the chosen group, numbered count+1 with ids `g-(n+1)-name` and `g-(n+1)-calories`; other groups unchanged; the form stays well numbered |
| Form.CalorieForm.GetCaloriesFromInputs | js/app.js:101-116 | returns the list's total or `null`; sets `isError` exactly when a value fails, else leaves it; alerts the first match |
| Form.CalorieForm.GetCaloriesOfEach | js/app.js:71 | every list is summed in order; `isError` is set if any failed and every failure alerts |
| Form.CalorieForm.CalculateCalories | js/app.js:60-94 | `isError` reset then set exactly when the submission aborts; output unchanged on abort, else visible and showing the report of `Calculate` |
| Form.CalorieForm.ClearForm | js/app.js:121-131 | every container empty, budget `""`, output blank and hidden; the new state does not depend on the old one, so clearing is idempotent |

## Left out

- The DOM (`getElementById`, `querySelector(All)`, `insertAdjacentHTML`, `innerHTML`/`innerText`, `classList`) and the event listeners (js/app.js:6-14, 133-136). They are represented by the fields of `CalorieForm` and its methods.
- The HTML template text (js/app.js:43-52, 85-91). Only the entry number, the ids, the label, the magnitude and the totals are modelled.
- `alert` is a side effect; the model appends the alerted text to the `alerts` log instead.
- `e.preventDefault()` (js/app.js:61) only concerns the browser's form submission and has no counterpart.
- The user typing into the fields is modelled by `Form.CalorieForm.EnterValues` and `Form.CalorieForm.SetBudget`, which have no counterpart in the script.
- JsNumber.NumberOf: `Number(...)` is modelled on digit strings only; decimals, exponents, hexadecimal, `Infinity` and every other non-digit text become `NaN`, and sums are unbounded integers with no floating-point rounding.
- Aggregate.CalculateNaNPassThrough: because of the `NumberOf` simplification, a decimal such as `1.5` yields `NaN` in the model, whereas the script sums it as a number; only texts that `Number(...)` itself rejects (such as `abc`) behave as this lemma says.
- Sanitizer.IsInvalidInput: the regular-expression engine is replaced by character-level definitions of the two patterns.
- JavaScript strings are sequences of UTF-16 code units; Dafny's `char` is a Unicode scalar value, so surrogate pairs are not modelled.
- Form.CalorieForm.ClearForm: idempotence is stated through its postcondition, which fixes the whole new state independently of the old one, not by a separate lemma.
