/**
 * The form itself: five group containers of entries, the budget field, the
 * output region, the module-level `isError` flag and the alerts shown to the
 * user. The page's elements are represented by this state; the handlers of
 * the "add entry" and "clear" buttons and of the form's submission are the
 * methods of `CalorieForm`.
 */
module Form {

  import opened Wrappers
  import opened JsNumber
  import opened Sanitizer
  import opened Aggregate

  datatype Group = Breakfast | Lunch | Dinner | Snacks | Exercise
  {
    /** The id of the group's section, which is also the dropdown's value. */
    function Id(): string
    {
      match this
      case Breakfast => "breakfast"
      case Lunch => "lunch"
      case Dinner => "dinner"
      case Snacks => "snacks"
      case Exercise => "exercise"
    }
  }

  /** The sections holding an `.input-container`, in document order. */
  const Groups: seq<Group> := [Breakfast, Lunch, Dinner, Snacks, Exercise]

  /** The sections whose calories are consumed, in the order they are summed. */
  const MealGroups: seq<Group> := [Breakfast, Lunch, Dinner, Snacks]

  datatype Field = NameField | CaloriesField

  function FieldSuffix(f: Field): string
  {
    match f
    case NameField => "name"
    case CaloriesField => "calories"
  }

  /** The id `<group>-<entry number>-name` or `<group>-<entry number>-calories`. */
  function FieldId(g: Group, n: nat, f: Field): string
  {
    g.Id() + "-" + EntryKey(n, f)
  }

  /** The part of a field id after the group: `<entry number>-name` or `<entry number>-calories`. */
  function EntryKey(n: nat, f: Field): string
  {
    Decimal(n) + "-" + FieldSuffix(f)
  }

  /** The position of the first `-` in `s`, or `|s|` if there is none. */
  function DashIndex(s: string): nat
  {
    if s == [] || s[0] == '-' then 0 else 1 + DashIndex(s[1..])
  }

  lemma {:induction false} DashIndexAfter(a: string, b: string)
    requires '-' !in a
    ensures DashIndex(a + "-" + b) == |a|
  {
    if a == [] {
      assert (a + "-" + b)[0] == '-';
    } else {
      assert (a + "-" + b)[0] == a[0];
      assert (a + "-" + b)[1..] == a[1..] + "-" + b;
      DashIndexAfter(a[1..], b);
    }
  }

  /** Two strings of the form `a-b`, where `a` has no dash, split alike. */
  lemma SplitAtDash(a: string, b: string, c: string, d: string)
    requires '-' !in a && '-' !in c
    requires a + "-" + b == c + "-" + d
    ensures a == c && b == d
  {
    var s := a + "-" + b;
    DashIndexAfter(a, b);
    DashIndexAfter(c, d);
    assert a == s[..|a|] && c == s[..|c|];
    assert b == s[|a| + 1..] && d == s[|c| + 1..];
  }

  lemma DecimalHasNoDash(n: nat)
    ensures '-' !in Decimal(n)
  {
  }

  lemma GroupIdHasNoDash(g: Group)
    ensures '-' !in g.Id()
  {
  }

  /** Different groups have different ids: their first letters already differ. */
  lemma GroupIdInjective(g1: Group, g2: Group)
    requires g1.Id() == g2.Id()
    ensures g1 == g2
  {
    assert g1.Id()[0] == g2.Id()[0];
  }

  /** No two fields of the form share an id: group, entry number and field can be read back from it. */
  lemma FieldIdInjective(g1: Group, n1: nat, f1: Field, g2: Group, n2: nat, f2: Field)
    requires FieldId(g1, n1, f1) == FieldId(g2, n2, f2)
    ensures g1 == g2 && n1 == n2 && f1 == f2
  {
    GroupIdHasNoDash(g1);
    GroupIdHasNoDash(g2);
    SplitAtDash(g1.Id(), EntryKey(n1, f1), g2.Id(), EntryKey(n2, f2));
    GroupIdInjective(g1, g2);
    DecimalHasNoDash(n1);
    DecimalHasNoDash(n2);
    SplitAtDash(Decimal(n1), FieldSuffix(f1), Decimal(n2), FieldSuffix(f2));
    DecimalInjective(n1, n2);
    assert |FieldSuffix(f1)| == |FieldSuffix(f2)|;
  }

  /** One name/calories pair of fields; `name` and `calories` are what the user typed. */
  datatype Entry = Entry(number: nat, nameId: string, caloriesId: string, name: string, calories: string)

  /** The pair of empty fields `addEntry` inserts as entry number `n` of group `g`. */
  function NewEntry(g: Group, n: nat): Entry
  {
    Entry(n, FieldId(g, n, NameField), FieldId(g, n, CaloriesField), "", "")
  }

  /** Entry `i` of the container of `g` is entry number `i + 1`, with the ids of that number. */
  predicate WellNumbered(g: Group, entries: seq<Entry>)
  {
    forall i :: 0 <= i < |entries| ==>
      entries[i].number == i + 1 &&
      entries[i].nameId == FieldId(g, i + 1, NameField) &&
      entries[i].caloriesId == FieldId(g, i + 1, CaloriesField)
  }

  /** Appending the entry numbered one past the last keeps a container well numbered. */
  lemma WellNumberedSnoc(g: Group, entries: seq<Entry>)
    requires WellNumbered(g, entries)
    ensures WellNumbered(g, entries + [NewEntry(g, |entries| + 1)])
  {
    var longer := entries + [NewEntry(g, |entries| + 1)];
    forall i | 0 <= i < |longer|
      ensures longer[i].number == i + 1
      ensures longer[i].nameId == FieldId(g, i + 1, NameField)
      ensures longer[i].caloriesId == FieldId(g, i + 1, CaloriesField)
    {
      if i < |entries| {
        assert longer[i] == entries[i];
      } else {
        assert longer[i] == NewEntry(g, |entries| + 1);
      }
    }
  }

  /** Every group has a container, numbered from 1 without gaps. */
  predicate FormInvariant(containers: map<Group, seq<Entry>>)
  {
    forall g :: g in containers && WellNumbered(g, containers[g])
  }

  function IdOf(e: Entry, f: Field): string
  {
    match f
    case NameField => e.nameId
    case CaloriesField => e.caloriesId
  }

  /** In a well-numbered form, two fields with the same id are the same field. */
  lemma IdsDistinct(containers: map<Group, seq<Entry>>, g1: Group, i1: nat, f1: Field, g2: Group, i2: nat, f2: Field)
    requires FormInvariant(containers)
    requires i1 < |containers[g1]| && i2 < |containers[g2]|
    requires IdOf(containers[g1][i1], f1) == IdOf(containers[g2][i2], f2)
    ensures g1 == g2 && i1 == i2 && f1 == f2
  {
    FieldIdInjective(g1, i1 + 1, f1, g2, i2 + 1, f2);
  }

  /** The values of a container's calorie fields (`input[type=number]`), in order. */
  function CaloriesValues(entries: seq<Entry>): (values: seq<string>)
    ensures |values| == |entries|
    ensures forall i :: 0 <= i < |entries| ==> values[i] == entries[i].calories
  {
    if entries == [] then [] else CaloriesValues(entries[..|entries| - 1]) + [entries[|entries| - 1].calories]
  }

  /** The calorie values of the four meal sections, in the order they are summed. */
  function MealValues(containers: map<Group, seq<Entry>>): seq<seq<string>>
    requires forall g :: g in containers
  {
    [CaloriesValues(containers[Breakfast]), CaloriesValues(containers[Lunch]),
     CaloriesValues(containers[Dinner]), CaloriesValues(containers[Snacks])]
  }

  /** What `getCaloriesFromInputs` returns for an outcome: the total, or `null`. */
  function ReturnOf(o: GroupOutcome): Option<Num>
  {
    match o
    case Total(t) => Some(t)
    case Invalid(_, _) => None
  }

  /** What `getCaloriesFromInputs` returns for each of a sequence of outcomes. */
  function ReturnsOf(os: seq<GroupOutcome>): (rs: seq<Option<Num>>)
    ensures |rs| == |os|
    ensures forall j :: 0 <= j < |os| ==> rs[j] == ReturnOf(os[j])
  {
    if os == [] then [] else ReturnsOf(os[..|os| - 1]) + [ReturnOf(os[|os| - 1])]
  }

  /**
   * `mealCalories.reduce((total, calories) => total + calories, 0)` over the
   * totals of meal lists none of which failed.
   */
  method ReduceCalories(mealCalories: seq<Option<Num>>, ghost os: seq<GroupOutcome>) returns (total: Num)
    requires |mealCalories| == |os| && !AnyInvalid(os)
    requires forall j :: 0 <= j < |os| ==> mealCalories[j] == ReturnOf(os[j])
    ensures total == Consumed(os)
  {
    total := Finite(0);
    for i := 0 to |mealCalories|
      invariant total == Consumed(os[..i])
    {
      assert os[..i + 1][..i] == os[..i];
      total := Add(total, mealCalories[i].value);
    }
    assert os[..|mealCalories|] == os;
  }

  /** Appending to a log piece by piece appends the pieces' concatenation. */
  lemma AppendAssoc<T>(log: seq<T>, a: seq<T>, b: seq<T>)
    ensures log + a + b == log + (a + b)
  {
  }

  datatype Content = Blank | Shown(report: Report)

  /** The output region: whether the `hide` class is absent, and what it shows. */
  datatype Output = Output(visible: bool, content: Content)

  class CalorieForm {
    var containers: map<Group, seq<Entry>>
    var budget: string
    var output: Output
    var isError: bool
    var alerts: seq<string>

    ghost predicate Valid()
      reads this
    {
      FormInvariant(containers)
    }

    /** The page as loaded: empty containers and budget, output hidden. */
    constructor ()
      ensures Valid()
      ensures forall g :: containers[g] == []
      ensures budget == "" && output == Output(false, Blank) && !isError && alerts == []
    {
      var empty: map<Group, seq<Entry>> :=
        map[Breakfast := [], Lunch := [], Dinner := [], Snacks := [], Exercise := []];
      forall g
        ensures g in empty && empty[g] == []
      {
        match g
        case Breakfast =>
        case Lunch =>
        case Dinner =>
        case Snacks =>
        case Exercise =>
      }
      containers := empty;
      budget := "";
      output := Output(false, Blank);
      isError := false;
      alerts := [];
    }

    /** The user types into the fields of entry `i` of group `g`. */
    method EnterValues(g: Group, i: nat, name: string, calories: string)
      requires Valid() && i < |containers[g]|
      modifies this`containers
      ensures Valid()
      ensures containers == old(containers)[g := old(containers)[g][i := old(containers)[g][i].(name := name, calories := calories)]]
    {
      var entries := containers[g];
      containers := containers[g := entries[i := entries[i].(name := name, calories := calories)]];
    }

    /** The user types into the budget field. */
    method SetBudget(value: string)
      modifies this`budget
      ensures budget == value
    {
      budget := value;
    }

    /**
     * `addEntry` with group `g` selected: the entry number is the count of
     * name fields already in the container plus one, and exactly one pair of
     * fields with that number's ids is appended; the other containers are
     * unchanged and the form stays well numbered, so all ids stay distinct.
     */
    method AddEntry(g: Group)
      requires Valid()
      modifies this`containers
      ensures Valid()
      ensures containers == old(containers)[g := old(containers)[g] + [NewEntry(g, |old(containers)[g]| + 1)]]
      ensures |containers[g]| == |old(containers)[g]| + 1
      ensures forall h :: h != g ==> containers[h] == old(containers)[h]
    {
      var targetInputContainer := containers[g];
      var entryNumber := |targetInputContainer| + 1;
      WellNumberedSnoc(g, targetInputContainer);
      containers := containers[g := targetInputContainer + [NewEntry(g, entryNumber)]];
    }

    /**
     * `getCaloriesFromInputs`: the total of the list, or `null` after alerting
     * the match in the first invalid value and setting `isError`; a list with
     * no invalid value leaves `isError` as it was.
     */
    method GetCaloriesFromInputs(values: seq<string>) returns (r: Option<Num>)
      modifies this`isError, this`alerts
      ensures r == ReturnOf(SumGroup(values))
      ensures isError == (old(isError) || SumGroup(values).Invalid?)
      ensures alerts == old(alerts) + AlertsOf(SumGroup(values))
    {
      var calories := Finite(0);
      for i := 0 to |values|
        invariant SumGroup(values[..i]) == Total(calories)
        invariant isError == old(isError) && alerts == old(alerts)
      {
        assert values[..i + 1][..i] == values[..i];
        var currVal := CleanInputString(values[i]);
        var invalidInputMatch := IsInvalidInput(currVal);
        if invalidInputMatch.Some? {
          alerts := alerts + [AlertText(invalidInputMatch.value.text)];
          isError := true;
          SumGroupStopsAtInvalid(values[..i + 1], values[i + 1..]);
          assert values[..i + 1] + values[i + 1..] == values;
          return None;
        }
        calories := Add(calories, NumberOf(currVal));
      }
      assert values[..|values|] == values;
      return Some(calories);
    }

    /**
     * `lists.map(getCaloriesFromInputs)`: every list is summed, in order,
     * whether or not an earlier one failed.
     */
    method GetCaloriesOfEach(lists: seq<seq<string>>) returns (rs: seq<Option<Num>>)
      modifies this`isError, this`alerts
      ensures |rs| == |lists|
      ensures forall j :: 0 <= j < |lists| ==> rs[j] == ReturnOf(SumGroup(lists[j]))
      ensures isError == (old(isError) || AnyInvalid(Outcomes(lists)))
      ensures alerts == old(alerts) + AllAlerts(Outcomes(lists))
    {
      ghost var os := Outcomes(lists);
      rs := [];
      for i := 0 to |lists|
        invariant |rs| == i
        invariant rs == ReturnsOf(os[..i])
        invariant alerts == old(alerts) + AllAlerts(os[..i])
        invariant isError == (old(isError) || AnyInvalid(os[..i]))
      {
        AlertsSnoc(os, i);
        assert os[..i + 1][..i] == os[..i];
        AppendAssoc(old(alerts), AllAlerts(os[..i]), AlertsOf(os[i]));
        var calories := GetCaloriesFromInputs(lists[i]);
        rs := rs + [calories];
      }
      assert os[..|lists|] == os;
    }

    /**
     * `calculateCalories`: resets `isError`, sums the four meal lists, the
     * exercise list and the one-element budget list (all six, whatever
     * failed), and leaves the output as it was if any failed; otherwise it
     * shows the report and makes the output visible.
     */
    method CalculateCalories()
      requires Valid()
      modifies this`isError, this`alerts, this`output
      ensures var c := Calculate(MealValues(containers), CaloriesValues(containers[Exercise]), budget);
        alerts == old(alerts) + c.alerts &&
        isError == c.report.None? &&
        output == if c.report.None? then old(output) else Output(true, Shown(c.report.value))
    {
      var meals := MealValues(containers);
      var exercise := CaloriesValues(containers[Exercise]);
      isError := false;

      var mealCalories := GetCaloriesOfEach(meals);
      var exerciseCalories := GetCaloriesFromInputs(exercise);
      var budgetCalories := GetCaloriesFromInputs([budget]);
      ghost var os := Outcomes(meals);
      CalculateParts(meals, exercise, budget, os, SumGroup(exercise), SumGroup([budget]));
      AppendAssoc(old(alerts), AllAlerts(os), AlertsOf(SumGroup(exercise)));
      AppendAssoc(old(alerts), AllAlerts(os) + AlertsOf(SumGroup(exercise)), AlertsOf(SumGroup([budget])));

      ghost var c := Calculate(meals, exercise, budget);
      assert c.report.None? == isError;

      if isError {
        return;
      }

      assert exerciseCalories.value == SumGroup(exercise).calories;
      assert budgetCalories.value == SumGroup([budget]).calories;
      var consumedCalories := ReduceCalories(mealCalories, os);
      var remainingCalories := Add(Sub(budgetCalories.value, consumedCalories), exerciseCalories.value);
      var surplusOrDeficit := if AtLeastZero(remainingCalories) then Surplus else Deficit;
      var report := Report(surplusOrDeficit, Abs(remainingCalories),
                           budgetCalories.value, consumedCalories, exerciseCalories.value);
      assert c.report == Some(report);
      output := Output(true, Shown(report));
    }

    /**
     * `clearForm`: every container is emptied, the budget cleared, the output
     * blanked and hidden. The new state does not depend on the old one, so
     * clearing twice is clearing once.
     */
    method ClearForm()
      requires Valid()
      modifies this`containers, this`budget, this`output
      ensures Valid()
      ensures forall g :: g in containers && containers[g] == []
      ensures budget == "" && output == Output(false, Blank)
    {
      var inputContainers := Groups;
      for i := 0 to |inputContainers|
        invariant Valid()
        invariant forall j :: 0 <= j < i ==> containers[inputContainers[j]] == []
      {
        containers := containers[inputContainers[i] := []];
      }
      forall g
        ensures containers[g] == []
      {
        assert g == inputContainers[0] || g == inputContainers[1] || g == inputContainers[2] ||
               g == inputContainers[3] || g == inputContainers[4];
      }
      budget := "";
      output := Output(false, Blank);
    }
  }
}
