/**
 * What `getCaloriesFromInputs` computes for one list of raw field values, and
 * what one submission of the form (`calculateCalories`) computes from the
 * six lists it reads: the four meal groups, the exercise group and the
 * one-element budget list.
 */
module Aggregate {

  import opened Wrappers
  import opened JsNumber
  import opened Sanitizer

  /**
   * The outcome of `getCaloriesFromInputs`: the running total, or `null` after
   * the value at position `at` was found invalid, `matched` being the text
   * the alert shows.
   */
  datatype GroupOutcome = Total(calories: Num) | Invalid(matched: string, at: nat)

  /** The raw value passes the scientific-notation check once cleaned. */
  predicate IsValidEntry(raw: string)
  {
    IsInvalidInput(CleanInputString(raw)).None?
  }

  /** The raw value is, once cleaned, empty or a string of decimal digits. */
  predicate IsNumeric(raw: string)
  {
    AllDigits(CleanInputString(raw))
  }

  predicate ValidList(values: seq<string>)
  {
    forall i :: 0 <= i < |values| ==> IsValidEntry(values[i])
  }

  predicate NumericList(values: seq<string>)
  {
    forall i :: 0 <= i < |values| ==> IsNumeric(values[i])
  }

  /**
   * The loop of `getCaloriesFromInputs`, value by value from the front: clean,
   * check, stop at the first invalid value, otherwise add `Number(cleaned)`.
   */
  function SumGroup(values: seq<string>): GroupOutcome
    decreases |values|
  {
    if values == [] then Total(Finite(0))
    else
      var n := |values| - 1;
      match SumGroup(values[..n])
      case Invalid(m, at) => Invalid(m, at)
      case Total(t) =>
        var v := CleanInputString(values[n]);
        match IsInvalidInput(v)
        case Some(m) => Invalid(m.text, n)
        case None => Total(Add(t, NumberOf(v)))
  }

  /** The integer a numeric raw value stands for. */
  function ValueOf(raw: string): nat
    requires IsNumeric(raw)
  {
    DigitsValue(CleanInputString(raw))
  }

  /** The plain sum of a list of numeric raw values. */
  function SumOfValues(values: seq<string>): nat
    requires NumericList(values)
  {
    if values == [] then 0 else ValueOf(values[0]) + SumOfValues(values[1..])
  }

  lemma {:induction false} SumOfValuesAppend(values: seq<string>, x: string)
    requires NumericList(values) && IsNumeric(x)
    ensures NumericList(values + [x])
    ensures SumOfValues(values + [x]) == SumOfValues(values) + ValueOf(x)
  {
    if values != [] {
      assert (values + [x])[1..] == values[1..] + [x];
      SumOfValuesAppend(values[1..], x);
    }
  }

  /** A non-empty list passes exactly when its first part and its last value pass. */
  lemma ValidListSnoc(values: seq<string>)
    requires values != []
    ensures ValidList(values) <==> ValidList(values[..|values| - 1]) && IsValidEntry(values[|values| - 1])
  {
    var n := |values| - 1;
    assert forall i :: 0 <= i < n ==> values[..n][i] == values[i];
  }

  /** A list passes exactly when every value in it passes the check. */
  lemma {:induction false} SumGroupTotalIff(values: seq<string>)
    ensures SumGroup(values).Total? <==> ValidList(values)
    decreases |values|
  {
    if values != [] {
      var n := |values| - 1;
      SumGroupTotalIff(values[..n]);
      ValidListSnoc(values);
    }
  }

  /**
   * On failure, the alerted text is the leftmost match in the first invalid
   * value, and every value before it passed the check.
   */
  lemma {:induction false} SumGroupInvalidIsFirst(values: seq<string>)
    requires SumGroup(values).Invalid?
    ensures var o := SumGroup(values);
      o.at < |values| &&
      (forall i :: 0 <= i < o.at ==> IsValidEntry(values[i])) &&
      IsInvalidInput(CleanInputString(values[o.at])).Some? &&
      o.matched == IsInvalidInput(CleanInputString(values[o.at])).value.text
    decreases |values|
  {
    var n := |values| - 1;
    var init := values[..n];
    assert forall i :: 0 <= i < n ==> init[i] == values[i];
    if SumGroup(init).Invalid? {
      SumGroupInvalidIsFirst(init);
    } else {
      SumGroupTotalIff(init);
    }
  }

  /** Once a value is found invalid, nothing after it in the list is examined. */
  lemma {:induction false} SumGroupStopsAtInvalid(values: seq<string>, rest: seq<string>)
    requires SumGroup(values).Invalid?
    ensures SumGroup(values + rest) == SumGroup(values)
    decreases |rest|
  {
    if rest == [] {
      assert values + rest == values;
    } else {
      var n := |rest| - 1;
      SumGroupStopsAtInvalid(values, rest[..n]);
      assert (values + rest)[..|values + rest| - 1] == values + rest[..n];
    }
  }

  /**
   * A list of values that all pass the check sums to the plain sum of their
   * numbers, the empty string counting 0, or to `NaN` if some value is not a
   * number.
   */
  lemma {:induction false} SumGroupOfValid(values: seq<string>)
    requires ValidList(values)
    ensures SumGroup(values) == Total(if NumericList(values) then Finite(SumOfValues(values)) else NaN)
    decreases |values|
  {
    if values != [] {
      var n := |values| - 1;
      var init := values[..n];
      assert values == init + [values[n]];
      assert ValidList(init);
      SumGroupOfValid(init);
      if NumericList(values) {
        assert NumericList(init);
        SumOfValuesAppend(init, values[n]);
      } else if NumericList(init) {
        assert !IsNumeric(values[n]);
      }
    }
  }

  /** A value that is empty or all digits once cleaned always passes the check. */
  lemma NumericIsValid(raw: string)
    requires IsNumeric(raw)
    ensures IsValidEntry(raw)
  {
  }

  datatype Label = Surplus | Deficit

  /** What the output region shows after a successful submission. */
  datatype Report = Report(sign: Label, magnitude: Num, budgeted: Num, consumed: Num, burned: Num)

  /** The alerts one submission raises, and the report it shows (`None`: output left as it was). */
  datatype Calculation = Calculation(alerts: seq<string>, report: Option<Report>)

  /** The text `alert` shows for a rejected value. */
  function AlertText(matched: string): string
  {
    "Invalid Input: " + matched
  }

  function AlertsOf(o: GroupOutcome): seq<string>
  {
    if o.Invalid? then [AlertText(o.matched)] else []
  }

  /**
   * `Calculate` unfolded in terms of the outcomes of its three parts. This
   * only repeats the definition, so that the proof of the form's handler can
   * use it without unfolding `Calculate` itself.
   */
  lemma CalculateParts(meals: seq<seq<string>>, exercise: seq<string>, budget: string,
                       os: seq<GroupOutcome>, ex: GroupOutcome, bu: GroupOutcome)
    requires os == Outcomes(meals) && ex == SumGroup(exercise) && bu == SumGroup([budget])
    ensures Calculate(meals, exercise, budget).alerts == AllAlerts(os) + AlertsOf(ex) + AlertsOf(bu)
    ensures Calculate(meals, exercise, budget).report.None? <==> AnyInvalid(os) || ex.Invalid? || bu.Invalid?
    ensures !(AnyInvalid(os) || ex.Invalid? || bu.Invalid?) ==>
      Calculate(meals, exercise, budget).report ==
        Some(Report(Classify(Add(Sub(bu.calories, Consumed(os)), ex.calories)),
                    Abs(Add(Sub(bu.calories, Consumed(os)), ex.calories)),
                    bu.calories, Consumed(os), ex.calories))
  {
  }

  /** Each list summed on its own, as `.map(getCaloriesFromInputs)` does. */
  function Outcomes(lists: seq<seq<string>>): (os: seq<GroupOutcome>)
    ensures |os| == |lists|
    ensures forall i :: 0 <= i < |lists| ==> os[i] == SumGroup(lists[i])
  {
    if lists == [] then [] else Outcomes(lists[..|lists| - 1]) + [SumGroup(lists[|lists| - 1])]
  }

  /** The alerts of the lists, in the order the lists are summed. */
  function AllAlerts(os: seq<GroupOutcome>): seq<string>
  {
    if os == [] then [] else AllAlerts(os[..|os| - 1]) + AlertsOf(os[|os| - 1])
  }

  predicate AnyInvalid(os: seq<GroupOutcome>)
  {
    exists i :: 0 <= i < |os| && os[i].Invalid?
  }

  /** `mealCalories.reduce((total, calories) => total + calories, 0)`. */
  function Consumed(os: seq<GroupOutcome>): Num
    requires forall i :: 0 <= i < |os| ==> os[i].Total?
  {
    if os == [] then Finite(0) else Add(Consumed(os[..|os| - 1]), os[|os| - 1].calories)
  }

  /** `remainingCalories >= 0 ? 'Surplus' : 'Deficit'`. */
  function Classify(remaining: Num): Label
  {
    if AtLeastZero(remaining) then Surplus else Deficit
  }

  /** The six lists in the order they are summed: the meals, exercise, then budget. */
  function Lists(meals: seq<seq<string>>, exercise: seq<string>, budget: string): seq<seq<string>>
  {
    meals + [exercise, [budget]]
  }

  /**
   * One submission: the meal lists, the exercise list and the budget list are
   * all summed (a failure in one does not stop the others), and a report is
   * made only if none failed.
   */
  function Calculate(meals: seq<seq<string>>, exercise: seq<string>, budget: string): Calculation
  {
    var mealOutcomes := Outcomes(meals);
    var exerciseOutcome := SumGroup(exercise);
    var budgetOutcome := SumGroup([budget]);
    var alerts := AllAlerts(mealOutcomes) + AlertsOf(exerciseOutcome) + AlertsOf(budgetOutcome);
    if AnyInvalid(mealOutcomes) || exerciseOutcome.Invalid? || budgetOutcome.Invalid? then
      Calculation(alerts, None)
    else
      var consumed := Consumed(mealOutcomes);
      var remaining := Add(Sub(budgetOutcome.calories, consumed), exerciseOutcome.calories);
      Calculation(alerts, Some(Report(Classify(remaining), Abs(remaining),
                                      budgetOutcome.calories, consumed, exerciseOutcome.calories)))
  }

  predicate AllValid(lists: seq<seq<string>>)
  {
    forall l :: 0 <= l < |lists| ==> ValidList(lists[l])
  }

  predicate AllNumeric(lists: seq<seq<string>>)
  {
    forall l :: 0 <= l < |lists| ==> NumericList(lists[l])
  }

  /** The plain sum of every value of every list. */
  function SumOfLists(lists: seq<seq<string>>): nat
    requires AllNumeric(lists)
  {
    if lists == [] then 0 else SumOfValues(lists[0]) + SumOfLists(lists[1..])
  }

  lemma {:induction false} SumOfListsAppend(lists: seq<seq<string>>, x: seq<string>)
    requires AllNumeric(lists) && NumericList(x)
    ensures AllNumeric(lists + [x])
    ensures SumOfLists(lists + [x]) == SumOfLists(lists) + SumOfValues(x)
  {
    if lists != [] {
      assert (lists + [x])[1..] == lists[1..] + [x];
      SumOfListsAppend(lists[1..], x);
    }
  }

  /** Summing one more list adds its alert, if any, and its failure, if any. */
  lemma AlertsSnoc(os: seq<GroupOutcome>, i: nat)
    requires i < |os|
    ensures AllAlerts(os[..i + 1]) == AllAlerts(os[..i]) + AlertsOf(os[i])
    ensures AnyInvalid(os[..i + 1]) == (AnyInvalid(os[..i]) || os[i].Invalid?)
  {
    assert os[..i + 1][..i] == os[..i];
    assert forall j :: 0 <= j < i ==> os[..i + 1][j] == os[..i][j];
  }

  /** The number of lists whose sum failed. */
  function CountInvalid(os: seq<GroupOutcome>): (n: nat)
    ensures n <= |os|
  {
    if os == [] then 0 else CountInvalid(os[..|os| - 1]) + (if os[|os| - 1].Invalid? then 1 else 0)
  }

  /** There is exactly one alert per list that failed, so none exactly when no list failed. */
  lemma {:induction false} AllAlertsCount(os: seq<GroupOutcome>)
    ensures |AllAlerts(os)| == CountInvalid(os)
    ensures AllAlerts(os) == [] <==> !AnyInvalid(os)
  {
    if os != [] {
      var init := os[..|os| - 1];
      AllAlertsCount(init);
      assert forall i :: 0 <= i < |init| ==> init[i] == os[i];
      if AnyInvalid(init) {
        var i :| 0 <= i < |init| && init[i].Invalid?;
        assert os[i].Invalid?;
      }
    }
  }

  /**
   * The alert of a failing list comes right after one alert for each failing
   * list before it: the k-th alert is the alert of the k-th failing list,
   * whatever text the other alerts carry.
   */
  lemma {:induction false} AllAlertsAt(os: seq<GroupOutcome>, l: nat)
    requires l < |os| && os[l].Invalid?
    ensures CountInvalid(os[..l]) < |AllAlerts(os)|
    ensures AllAlerts(os)[CountInvalid(os[..l])] == AlertText(os[l].matched)
  {
    var n := |os| - 1;
    var init := os[..n];
    AllAlertsCount(init);
    if l == n {
      assert os[..l] == init;
    } else {
      assert init[l] == os[l] && init[..l] == os[..l];
      AllAlertsAt(init, l);
    }
  }

  /** Appending one more list to the `.map` appends its outcome. */
  lemma OutcomesSnoc(lists: seq<seq<string>>, x: seq<string>)
    ensures Outcomes(lists + [x]) == Outcomes(lists) + [SumGroup(x)]
  {
    assert (lists + [x])[..|lists|] == lists;
  }

  /** Appending one more outcome appends its alert, if any. */
  lemma AllAlertsSnoc(os: seq<GroupOutcome>, o: GroupOutcome)
    ensures AllAlerts(os + [o]) == AllAlerts(os) + AlertsOf(o)
  {
    assert (os + [o])[..|os|] == os;
  }

  /** The alerts of the six lists are those of the meals, then exercise's, then the budget's. */
  lemma ListsAlerts(meals: seq<seq<string>>, exercise: seq<string>, budget: string)
    ensures AllAlerts(Outcomes(Lists(meals, exercise, budget))) ==
      AllAlerts(Outcomes(meals)) + AlertsOf(SumGroup(exercise)) + AlertsOf(SumGroup([budget]))
  {
    var os, e, b := Outcomes(meals), SumGroup(exercise), SumGroup([budget]);
    assert Lists(meals, exercise, budget) == (meals + [exercise]) + [[budget]];
    OutcomesSnoc(meals + [exercise], [budget]);
    OutcomesSnoc(meals, exercise);
    AllAlertsSnoc(os + [e], b);
    AllAlertsSnoc(os, e);
  }

  /** The alerts of a submission are those of its six lists, in the order they are summed. */
  lemma CalculateAlerts(meals: seq<seq<string>>, exercise: seq<string>, budget: string)
    ensures Calculate(meals, exercise, budget).alerts == AllAlerts(Outcomes(Lists(meals, exercise, budget)))
  {
    CalculateParts(meals, exercise, budget, Outcomes(meals), SumGroup(exercise), SumGroup([budget]));
    ListsAlerts(meals, exercise, budget);
  }

  /** Splitting off the last list. */
  lemma SnocLists(lists: seq<seq<string>>)
    requires lists != []
    ensures var n := |lists| - 1;
      lists == lists[..n] + [lists[n]] &&
      (AllValid(lists) <==> AllValid(lists[..n]) && ValidList(lists[n])) &&
      (AllNumeric(lists) <==> AllNumeric(lists[..n]) && NumericList(lists[n]))
  {
    var n := |lists| - 1;
    assert forall l :: 0 <= l < n ==> lists[..n][l] == lists[l];
  }

  /** The outcomes of a prefix of the lists are a prefix of the outcomes. */
  lemma OutcomesPrefix(lists: seq<seq<string>>)
    requires lists != []
    ensures Outcomes(lists)[..|lists| - 1] == Outcomes(lists[..|lists| - 1])
  {
    var init := Outcomes(lists[..|lists| - 1]);
    assert (init + [SumGroup(lists[|lists| - 1])])[..|init|] == init;
  }

  lemma OutcomesOfValid(lists: seq<seq<string>>)
    requires AllValid(lists)
    ensures forall i :: 0 <= i < |lists| ==> Outcomes(lists)[i].Total?
  {
    forall i | 0 <= i < |lists|
      ensures Outcomes(lists)[i].Total?
    {
      SumGroupTotalIff(lists[i]);
    }
  }

  /** The total consumed is the plain sum of the meals, or `NaN` if some meal value is not a number. */
  lemma {:induction false} ConsumedOfValid(meals: seq<seq<string>>)
    requires AllValid(meals)
    ensures forall i :: 0 <= i < |meals| ==> Outcomes(meals)[i].Total?
    ensures Consumed(Outcomes(meals)) == PlainConsumed(meals)
    decreases |meals|
  {
    OutcomesOfValid(meals);
    if meals != [] {
      var n := |meals| - 1;
      var init := meals[..n];
      var os := Outcomes(meals);
      SnocLists(meals);
      OutcomesPrefix(meals);
      ConsumedOfValid(init);
      SumGroupOfValid(meals[n]);
      assert os[n] == SumGroup(meals[n]);
      PlainConsumedSnoc(meals);
      assert Consumed(os) == Add(Consumed(os[..n]), os[n].calories);
    }
  }

  /** The plain total of the meals grows by the plain total of the last one. */
  lemma PlainConsumedSnoc(meals: seq<seq<string>>)
    requires meals != []
    ensures PlainConsumed(meals) == Add(PlainConsumed(meals[..|meals| - 1]), PlainTotal(meals[|meals| - 1]))
  {
    var n := |meals| - 1;
    SnocLists(meals);
    if AllNumeric(meals) {
      SumOfListsAppend(meals[..n], meals[n]);
    }
  }

  /** A list of lists passes exactly when no list's sum failed. */
  lemma AllValidIff(lists: seq<seq<string>>)
    ensures AllValid(lists) <==> !AnyInvalid(Outcomes(lists))
  {
    forall l | 0 <= l < |lists|
      ensures Outcomes(lists)[l].Total? <==> ValidList(lists[l])
    {
      SumGroupTotalIff(lists[l]);
    }
  }

  lemma ListsValidIff(meals: seq<seq<string>>, exercise: seq<string>, budget: string)
    ensures AllValid(Lists(meals, exercise, budget)) <==>
      AllValid(meals) && ValidList(exercise) && ValidList([budget])
  {
    var lists := Lists(meals, exercise, budget);
    assert lists[|meals|] == exercise && lists[|meals| + 1] == [budget];
    assert forall l :: 0 <= l < |meals| ==> lists[l] == meals[l];
  }

  /**
   * A submission is aborted exactly when some value in one of the six lists
   * fails the check, and exactly when at least one alert was raised. All six
   * lists are summed even after one has failed: there is exactly one alert
   * per failing list, and the k-th alert is that of the k-th failing list.
   */
  lemma CalculateAbortsIffInvalid(meals: seq<seq<string>>, exercise: seq<string>, budget: string)
    ensures var c := Calculate(meals, exercise, budget);
      (c.report.None? <==> !AllValid(Lists(meals, exercise, budget))) &&
      (c.report.None? <==> c.alerts != [])
    ensures var os := Outcomes(Lists(meals, exercise, budget));
      |Calculate(meals, exercise, budget).alerts| == CountInvalid(os)
    ensures var os := Outcomes(Lists(meals, exercise, budget));
      forall l :: 0 <= l < |os| && os[l].Invalid? ==>
        CountInvalid(os[..l]) < |Calculate(meals, exercise, budget).alerts| &&
        Calculate(meals, exercise, budget).alerts[CountInvalid(os[..l])] == AlertText(os[l].matched)
  {
    var lists := Lists(meals, exercise, budget);
    var os := Outcomes(lists);
    CalculateAlerts(meals, exercise, budget);
    AllAlertsCount(os);
    AllAlertsCount(Outcomes(meals));
    AllValidIff(meals);
    ListsValidIff(meals, exercise, budget);
    SumGroupTotalIff(exercise);
    SumGroupTotalIff([budget]);
    AllValidIff(lists);
    forall l | 0 <= l < |os| && os[l].Invalid?
      ensures CountInvalid(os[..l]) < |AllAlerts(os)| && AllAlerts(os)[CountInvalid(os[..l])] == AlertText(os[l].matched)
    {
      AllAlertsAt(os, l);
    }
  }

  /** The plain sum of a list as a JavaScript number: `NaN` if some value is not a number. */
  function PlainTotal(values: seq<string>): Num
  {
    if NumericList(values) then Finite(SumOfValues(values)) else NaN
  }

  /** The plain sum of all meal lists as a JavaScript number. */
  function PlainConsumed(meals: seq<seq<string>>): Num
  {
    if AllNumeric(meals) then Finite(SumOfLists(meals)) else NaN
  }

  /**
   * When every value passes the check, no alert is raised and the report
   * holds the plain totals, with `remaining = budget - consumed + burned`.
   */
  lemma CalculateOfValid(meals: seq<seq<string>>, exercise: seq<string>, budget: string)
    requires AllValid(Lists(meals, exercise, budget))
    ensures var c := Calculate(meals, exercise, budget);
      var remaining := Add(Sub(PlainTotal([budget]), PlainConsumed(meals)), PlainTotal(exercise));
      c.alerts == [] &&
      c.report == Some(Report(Classify(remaining), Abs(remaining),
                              PlainTotal([budget]), PlainConsumed(meals), PlainTotal(exercise)))
  {
    ListsValidIff(meals, exercise, budget);
    AllValidIff(meals);
    ConsumedOfValid(meals);
    SumGroupOfValid(exercise);
    SumGroupOfValid([budget]);
    AllAlertsCount(Outcomes(meals));
  }

  /**
   * When every value is a number, the report says `remaining = budget -
   * (sum of the meals) + exercise`, labelled Surplus exactly when it is at
   * least zero (zero is a Surplus), shown as its absolute value.
   */
  lemma CalculateOnNumbers(meals: seq<seq<string>>, exercise: seq<string>, budget: string, remaining: int)
    requires AllNumeric(meals) && NumericList(exercise) && IsNumeric(budget)
    requires remaining == ValueOf(budget) - SumOfLists(meals) + SumOfValues(exercise)
    ensures Calculate(meals, exercise, budget) ==
      Calculation([], Some(Report(if remaining >= 0 then Surplus else Deficit,
                                  Finite(if remaining >= 0 then remaining else -remaining),
                                  Finite(ValueOf(budget)), Finite(SumOfLists(meals)),
                                  Finite(SumOfValues(exercise)))))
  {
    NumericPartsValid(meals, exercise, budget);
    CalculateOfValid(meals, exercise, budget);
    PlainTotalsOfNumeric(meals, exercise, budget);
    RemainingOfFinite(ValueOf(budget), SumOfLists(meals), SumOfValues(exercise), remaining);
  }

  /** Lists of numbers pass the scientific-notation check. */
  lemma NumericPartsValid(meals: seq<seq<string>>, exercise: seq<string>, budget: string)
    requires AllNumeric(meals) && NumericList(exercise) && IsNumeric(budget)
    ensures AllValid(Lists(meals, exercise, budget))
  {
    ListsNumericIff(meals, exercise, budget);
    AllNumericIsAllValid(Lists(meals, exercise, budget));
  }

  lemma PlainTotalsOfNumeric(meals: seq<seq<string>>, exercise: seq<string>, budget: string)
    requires AllNumeric(meals) && NumericList(exercise) && IsNumeric(budget)
    ensures PlainTotal([budget]) == Finite(ValueOf(budget))
    ensures PlainConsumed(meals) == Finite(SumOfLists(meals))
    ensures PlainTotal(exercise) == Finite(SumOfValues(exercise))
  {
    assert [budget][1..] == [];
    assert SumOfValues([budget]) == ValueOf(budget) + SumOfValues([]);
  }

  /** The remainder of finite totals, its sign and its magnitude. */
  lemma RemainingOfFinite(budgeted: int, consumed: int, burned: int, r: int)
    requires r == budgeted - consumed + burned
    ensures Add(Sub(Finite(budgeted), Finite(consumed)), Finite(burned)) == Finite(r)
    ensures Classify(Finite(r)) == Surplus <==> r >= 0
    ensures Abs(Finite(r)) == Finite(if r >= 0 then r else -r)
  {
  }

  lemma ListsNumericIff(meals: seq<seq<string>>, exercise: seq<string>, budget: string)
    ensures AllNumeric(Lists(meals, exercise, budget)) <==>
      AllNumeric(meals) && NumericList(exercise) && IsNumeric(budget)
  {
    var lists := Lists(meals, exercise, budget);
    assert lists[|meals|] == exercise && lists[|meals| + 1] == [budget];
    assert forall l :: 0 <= l < |meals| ==> lists[l] == meals[l];
    assert NumericList([budget]) <==> IsNumeric(budget) by {
      assert [budget][0] == budget;
    }
  }

  lemma AllNumericIsAllValid(lists: seq<seq<string>>)
    requires AllNumeric(lists)
    ensures AllValid(lists)
  {
    forall l, i | 0 <= l < |lists| && 0 <= i < |lists[l]|
      ensures IsValidEntry(lists[l][i])
    {
      NumericIsValid(lists[l][i]);
    }
  }

  /**
   * Text that passes the check but that `NumberOf` does not read as a number
   * (such as "abc") is not rejected: the submission succeeds and shows
   * `NaN Calorie Deficit`. Decimal text such as "1.5" is also `NaN` here,
   * although the script reads it as a number; see `NumberOf`.
   */
  lemma CalculateNaNPassThrough(meals: seq<seq<string>>, exercise: seq<string>, budget: string)
    requires AllValid(Lists(meals, exercise, budget))
    requires !AllNumeric(Lists(meals, exercise, budget))
    ensures var c := Calculate(meals, exercise, budget);
      c.alerts == [] && c.report.Some? &&
      c.report.value.sign == Deficit && c.report.value.magnitude == NaN
  {
    ListsNumericIff(meals, exercise, budget);
    CalculateOfValid(meals, exercise, budget);
    if AllNumeric(meals) && NumericList(exercise) {
      assert !NumericList([budget]);
    }
  }
}
