/**
 * The onboarding wizard: six steps walked with Next and Previous, a record
 * of answers edited by the controls each step shows, and a per-step guard
 * that keeps Next disabled until the step is answered. Leaving the wizard
 * (navigation to the dashboard) is the `finished` flag.
 */
module Onboarding {
  import opened Wrappers

  // ---------------------------------------------------------------------------
  // The answer record

  datatype Data = Data(
    name: string,
    goals: seq<string>,
    experience: string,
    workoutDays: int,
    equipment: seq<string>,
    age: string,
    gender: string,
    height: string,
    weight: string)

  /** The answers before the first step: everything empty, three training days. */
  const InitialData: Data := Data("", [], "", 3, [], "", "", "", "")

  /** The record's keys, as `handleInputChange` and `handleMultiSelect` name them. */
  datatype Field = Name | Goals | Experience | WorkoutDays | Equipment | Age | Gender | Height | Weight

  /** A field's value: text, a list of selected option values, or a number. */
  datatype Value = Text(text: string) | Items(items: seq<string>) | Count(n: int)

  /** The kind of value each field holds. */
  predicate Fits(f: Field, v: Value) {
    match f
    case Goals | Equipment => v.Items?
    case WorkoutDays => v.Count?
    case _ => v.Text?
  }

  function Get(d: Data, f: Field): (v: Value)
    ensures Fits(f, v)
  {
    match f
    case Name => Text(d.name)
    case Goals => Items(d.goals)
    case Experience => Text(d.experience)
    case WorkoutDays => Count(d.workoutDays)
    case Equipment => Items(d.equipment)
    case Age => Text(d.age)
    case Gender => Text(d.gender)
    case Height => Text(d.height)
    case Weight => Text(d.weight)
  }

  /** `handleInputChange(field, value)`: the named field takes the value; every other field is unchanged. */
  function SetField(d: Data, f: Field, v: Value): (r: Data)
    requires Fits(f, v)
    ensures Get(r, f) == v
    ensures forall g :: g != f ==> Get(r, g) == Get(d, g)
  {
    match f
    case Name => d.(name := v.text)
    case Goals => d.(goals := v.items)
    case Experience => d.(experience := v.text)
    case WorkoutDays => d.(workoutDays := v.n)
    case Equipment => d.(equipment := v.items)
    case Age => d.(age := v.text)
    case Gender => d.(gender := v.text)
    case Height => d.(height := v.text)
    case Weight => d.(weight := v.text)
  }

  /** Writing back the value just read leaves the record as it was. */
  lemma SetFieldGetIdentity(d: Data, f: Field)
    ensures SetField(d, f, Get(d, f)) == d
  {
  }

  /** Two records that agree on every field are the same record. */
  lemma {:induction false} SameFieldsSameData(a: Data, b: Data)
    requires forall g :: Get(a, g) == Get(b, g)
    ensures a == b
  {
    assert Get(a, Name) == Get(b, Name) && Get(a, Goals) == Get(b, Goals);
    assert Get(a, Experience) == Get(b, Experience) && Get(a, WorkoutDays) == Get(b, WorkoutDays);
    assert Get(a, Equipment) == Get(b, Equipment) && Get(a, Age) == Get(b, Age);
    assert Get(a, Gender) == Get(b, Gender) && Get(a, Height) == Get(b, Height);
    assert Get(a, Weight) == Get(b, Weight);
  }

  /** A later write to the same field overrides an earlier one. */
  lemma SetFieldLastWriteWins(d: Data, f: Field, v: Value, w: Value)
    requires Fits(f, v) && Fits(f, w)
    ensures SetField(SetField(d, f, v), f, w) == SetField(d, f, w)
  {
    SameFieldsSameData(SetField(SetField(d, f, v), f, w), SetField(d, f, w));
  }

  // ---------------------------------------------------------------------------
  // Multiselect

  /** `items.filter(item => item !== value)`. */
  function Remove(xs: seq<string>, v: string): (r: seq<string>)
    ensures v !in r
    ensures multiset(r) == multiset(xs)[v := 0]
  {
    if |xs| == 0 then []
    else
      var rest := Remove(xs[1..], v);
      assert xs == [xs[0]] + xs[1..];
      if xs[0] == v then rest else [xs[0]] + rest
  }

  /** Removing from a concatenation removes from each part, so the kept items stay in order. */
  lemma {:induction false} RemoveAppend(a: seq<string>, b: seq<string>, v: string)
    ensures Remove(a + b, v) == Remove(a, v) + Remove(b, v)
  {
    if |a| == 0 {
      assert a + b == b;
    } else {
      assert (a + b)[1..] == a[1..] + b;
      RemoveAppend(a[1..], b, v);
    }
  }

  /** Removing a value that is not there changes nothing. */
  lemma {:induction false} RemoveAbsent(xs: seq<string>, v: string)
    requires v !in xs
    ensures Remove(xs, v) == xs
  {
    if |xs| > 0 {
      RemoveAbsent(xs[1..], v);
      assert xs == [xs[0]] + xs[1..];
    }
  }

  /**
   * The list `handleMultiSelect` computes: a selected value is removed (all
   * its occurrences), an unselected one is appended at the end.
   */
  function ToggleItem(xs: seq<string>, v: string): (r: seq<string>)
    ensures v in r <==> v !in xs
    ensures v in xs ==> multiset(r) == multiset(xs)[v := 0]
    ensures v in xs ==> r == Remove(xs, v)
    ensures v !in xs ==> r == xs + [v]
  {
    if v in xs then Remove(xs, v) else xs + [v]
  }

  /** Toggling an unselected value on and off again restores the list exactly. */
  lemma ToggleTwiceRestores(xs: seq<string>, v: string)
    requires v !in xs
    ensures ToggleItem(ToggleItem(xs, v), v) == xs
  {
    RemoveAppend(xs, [v], v);
    RemoveAbsent(xs, v);
    assert Remove([v], v) == [];
  }

  predicate IsListField(f: Field) {
    f == Goals || f == Equipment
  }

  /** `handleMultiSelect(field, value)` on one of the two list fields. */
  function MultiSelect(d: Data, f: Field, v: string): (r: Data)
    requires IsListField(f)
    ensures Get(r, f) == Items(ToggleItem(Get(d, f).items, v))
    ensures forall g :: g != f ==> Get(r, g) == Get(d, g)
  {
    SetField(d, f, Items(ToggleItem(Get(d, f).items, v)))
  }

  // ---------------------------------------------------------------------------
  // The training-days stepper

  const MinDays: int := 1
  const MaxDays: int := 7

  /** The minus button: one day fewer, never below 1. */
  function StepDown(d: Data): (r: Data)
    ensures r.workoutDays == if d.workoutDays - 1 < MinDays then MinDays else d.workoutDays - 1
    ensures r == d.(workoutDays := r.workoutDays)
  {
    var n := d.workoutDays - 1;
    SetField(d, WorkoutDays, Count(if n < MinDays then MinDays else n))
  }

  /** The plus button: one day more, never above 7. */
  function StepUp(d: Data): (r: Data)
    ensures r.workoutDays == if d.workoutDays + 1 > MaxDays then MaxDays else d.workoutDays + 1
    ensures r == d.(workoutDays := r.workoutDays)
  {
    var n := d.workoutDays + 1;
    SetField(d, WorkoutDays, Count(if n > MaxDays then MaxDays else n))
  }

  /**
   * From a value in [1, 7] both buttons stay in [1, 7]; each moves the value
   * by one unless it is at that end already, and minus undoes plus below 7.
   */
  lemma StepperStaysInRange(d: Data)
    requires MinDays <= d.workoutDays <= MaxDays
    ensures MinDays <= StepDown(d).workoutDays <= MaxDays
    ensures MinDays <= StepUp(d).workoutDays <= MaxDays
    ensures d.workoutDays > MinDays ==> StepDown(d).workoutDays == d.workoutDays - 1
    ensures d.workoutDays < MaxDays ==> StepUp(d).workoutDays == d.workoutDays + 1
    ensures d.workoutDays < MaxDays ==> StepDown(StepUp(d)) == d
  {
  }

  // ---------------------------------------------------------------------------
  // Steps and the Next guard

  datatype StepKind = TextStep | MultiSelectStep | SelectStep | NumberStep | FormStep

  /** A step's kind and the fields its controls edit (one field, or four for the form). */
  datatype Step = Step(kind: StepKind, fields: seq<Field>)

  const Steps: seq<Step> := [
    Step(TextStep, [Name]),
    Step(MultiSelectStep, [Goals]),
    Step(SelectStep, [Experience]),
    Step(NumberStep, [WorkoutDays]),
    Step(MultiSelectStep, [Equipment]),
    Step(FormStep, [Age, Gender, Height, Weight])
  ]

  const LastStep: int := |Steps| - 1

  /** `canProceed`, case by case on the step kind. */
  predicate CanProceed(d: Data, step: int)
    requires 0 <= step < |Steps|
  {
    var s := Steps[step];
    match s.kind
    case TextStep => Get(d, s.fields[0]).text != ""
    case SelectStep => Get(d, s.fields[0]).text != ""
    case MultiSelectStep => |Get(d, s.fields[0]).items| > 0
    case NumberStep => Get(d, s.fields[0]).n > 0
    case FormStep => d.age != "" && d.gender != "" && d.height != "" && d.weight != ""
  }

  /** A field counts as answered when its text or list is non-empty, or its number is positive. */
  predicate Answered(d: Data, f: Field) {
    match Get(d, f)
    case Text(t) => t != ""
    case Items(xs) => |xs| > 0
    case Count(n) => n > 0
  }

  /** Next is enabled exactly when every field the current step shows is answered. */
  lemma CanProceedIffAnswered(d: Data, step: int)
    requires 0 <= step < |Steps|
    ensures CanProceed(d, step) <==> forall i :: 0 <= i < |Steps[step].fields| ==> Answered(d, Steps[step].fields[i])
  {
    if step == LastStep {
      var fs := Steps[step].fields;
      assert fs[0] == Age && fs[1] == Gender && fs[2] == Height && fs[3] == Weight;
    }
  }

  // ---------------------------------------------------------------------------
  // Navigation

  datatype Wizard = Wizard(step: int, data: Data, finished: bool)

  const Start: Wizard := Wizard(0, InitialData, false)

  /** `handleNext`: forward one step, or leave the wizard from the last one. */
  function Next(w: Wizard): (r: Wizard)
    ensures r.data == w.data
    ensures w.step < LastStep ==> r.step == w.step + 1 && r.finished == w.finished
    ensures w.step >= LastStep ==> r.step == w.step && r.finished
  {
    if w.step < LastStep then w.(step := w.step + 1) else w.(finished := true)
  }

  /** `handlePrevious`: back one step; nothing happens on the first step. */
  function Previous(w: Wizard): (r: Wizard)
    ensures r.data == w.data && r.finished == w.finished
    ensures w.step > 0 ==> r.step == w.step - 1
    ensures w.step <= 0 ==> r == w
  {
    if w.step > 0 then w.(step := w.step - 1) else w
  }

  /** Previous after Next from any step but the last returns to where it started. */
  lemma PreviousUndoesNext(w: Wizard)
    requires 0 <= w.step < LastStep
    ensures Previous(Next(w)) == w
  {
  }

  /** The controls a user can operate. */
  datatype Event =
    | PressNext
    | PressPrevious
    | Input(field: Field, value: string)  // a text box or a select on the current step
    | Toggle(field: Field, item: string)   // an option button of a multiselect step
    | Minus                               // the stepper's minus button
    | Plus                                // the stepper's plus button

  /** Which controls the current step renders, and whether its buttons are enabled. */
  predicate Enabled(w: Wizard, e: Event)
    requires 0 <= w.step < |Steps|
  {
    var s := Steps[w.step];
    !w.finished &&
    match e
    case PressNext => CanProceed(w.data, w.step)
    case PressPrevious => w.step != 0
    case Input(f, _) => s.kind in {TextStep, SelectStep, FormStep} && f in s.fields
    case Toggle(f, _) => s.kind == MultiSelectStep && f in s.fields
    case Minus => s.kind == NumberStep
    case Plus => s.kind == NumberStep
  }

  /** The field a text box or select can edit holds text. */
  lemma InputFieldsHoldText(step: int, f: Field)
    requires 0 <= step < |Steps| && Steps[step].kind in {TextStep, SelectStep, FormStep}
    requires f in Steps[step].fields
    ensures Fits(f, Text(""))
  {
  }

  function Dispatch(w: Wizard, e: Event): (r: Wizard)
    requires 0 <= w.step < |Steps| && Enabled(w, e)
  {
    match e
    case PressNext => Next(w)
    case PressPrevious => Previous(w)
    case Input(f, v) =>
      InputFieldsHoldText(w.step, f);
      w.(data := SetField(w.data, f, Text(v)))
    case Toggle(f, v) => w.(data := MultiSelect(w.data, f, v))
    case Minus => w.(data := StepDown(w.data))
    case Plus => w.(data := StepUp(w.data))
  }

  /** What holds in every state the wizard can reach. */
  predicate Inv(w: Wizard) {
    && 0 <= w.step <= LastStep
    && MinDays <= w.data.workoutDays <= MaxDays
    && (w.finished ==> w.step == LastStep)
  }

  lemma StartInv()
    ensures Inv(Start)
  {
  }

  /**
   * Every enabled control keeps the step inside the six steps and the
   * training days inside [1, 7]; the wizard is only left from the last step,
   * and only with the biometric form filled in.
   */
  lemma DispatchKeepsInv(w: Wizard, e: Event)
    requires Inv(w) && Enabled(w, e)
    ensures Inv(Dispatch(w, e))
    ensures Dispatch(w, e).finished ==>
      w.finished || (w.step == LastStep && w.data.age != "" && w.data.gender != "" && w.data.height != "" && w.data.weight != "")
  {
    match e
    case Input(f, v) =>
      assert f != WorkoutDays;
    case _ =>
  }

  /** On the number step Next is never disabled, since the stepper keeps the days at 1 or more. */
  lemma NumberStepAlwaysProceeds(w: Wizard)
    requires Inv(w) && Steps[w.step].kind == NumberStep
    ensures CanProceed(w.data, w.step)
  {
  }

  /** Replays a sequence of controls; `None` if one of them is disabled when it comes. */
  function Run(w: Wizard, es: seq<Event>): (r: Option<Wizard>)
    requires Inv(w)
    ensures r.Some? ==> Inv(r.value)
    decreases |es|
  {
    if |es| == 0 then Some(w)
    else if !Enabled(w, es[0]) then None
    else
      DispatchKeepsInv(w, es[0]);
      Run(Dispatch(w, es[0]), es[1..])
  }

  /** From the start, every reachable state keeps the step in [0, 5] and the days in [1, 7]. */
  lemma ReachableInv(es: seq<Event>)
    requires Run(Start, es).Some?
    ensures 0 <= Run(Start, es).value.step <= 5
    ensures 1 <= Run(Start, es).value.data.workoutDays <= 7
  {
  }
}
