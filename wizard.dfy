/** The project-creation wizard page: thirteen steps shown one at a time, the step counter the
    progress bar and the steps move, and the form data each step writes into. What a step hands
    to `setData` is held as a JSON value. */
module Wizard {
  import opened Common
  import opened Text
  import opened Json

  const Steps: seq<string> := [
    "Project Name", "Website Type", "Project Description", "Add Media", "Choose Design",
    "Configure Auth", "Configure Pricing", "Add Payments", "Sitemap", "Add Storage",
    "Add Database", "Configure Hosting", "Setup Complete"]

  /** `steps.length - 1`. */
  const LastStep: int := |Steps| - 1

  /** The `formData` keys written through a step's `setData`. */
  datatype Slot = Media | Design | Auth | Pricing | Payments | Sitemap | Storage | Database | Hosting

  const AllSlots: set<Slot> := {Media, Design, Auth, Pricing, Payments, Sitemap, Storage, Database, Hosting}

  /** `formData`: the three answers of the first steps and the data of the others. */
  datatype FormData = FormData(projectName: string, isWebApp: Option<bool>, description: string,
                               slots: map<Slot, Value>)

  /** The initial (and restarted) form: empty answers and `{}` in every slot. */
  function InitialForm(): (f: FormData)
    ensures f.projectName == "" && f.isWebApp.None? && f.description == ""
    ensures f.slots.Keys == AllSlots && forall s | s in f.slots :: f.slots[s] == JObj(map[])
  {
    FormData("", None, "", map s | s in AllSlots :: JObj(map[]))
  }

  /** `Math.min(s + 1, steps.length - 1)`. */
  function NextStep(s: int): (r: int)
    ensures r == if s < LastStep then s + 1 else LastStep
  {
    if s + 1 < LastStep then s + 1 else LastStep
  }

  /** `Math.max(s - 1, 0)`. */
  function PrevStep(s: int): (r: int)
    ensures r == if s > 0 then s - 1 else 0
  {
    if s - 1 > 0 then s - 1 else 0
  }

  /** Both moves keep the step among the thirteen, and away from the ends they undo each other. */
  lemma MovesStayInRange(s: int)
    requires 0 <= s <= LastStep
    ensures 0 <= NextStep(s) <= LastStep && 0 <= PrevStep(s) <= LastStep
    ensures s < LastStep ==> PrevStep(NextStep(s)) == s
    ensures s > 0 ==> NextStep(PrevStep(s)) == s
    ensures NextStep(LastStep) == LastStep && PrevStep(0) == 0
  {
  }

  /** The progress bar's `canGoBack` and `canGoNext`. */
  predicate CanGoBack(step: int) { step > 0 }
  predicate CanGoNext(step: int) { step < LastStep }

  /** The progress bar's buttons are enabled exactly when pressing them changes the step. */
  lemma ProgressFlags(step: int)
    requires 0 <= step <= LastStep
    ensures CanGoBack(step) <==> PrevStep(step) != step
    ensures CanGoNext(step) <==> NextStep(step) != step
  {
  }

  /** The component the step switch renders, `NoComponent` for the default case. */
  datatype Component =
    | ProjectNameStep | WebsiteTypeStep | DescriptionStep
    | DataStep(slot: Slot)
    | SetupComplete
    | NoComponent

  const DataSteps: seq<Slot> := [Media, Design, Auth, Pricing, Payments, Sitemap, Storage, Database, Hosting]

  function StepComponent(step: int): (c: Component)
    ensures c.NoComponent? <==> !(0 <= step <= LastStep)
    ensures c.DataStep? <==> 3 <= step <= 11
  {
    if step == 0 then ProjectNameStep
    else if step == 1 then WebsiteTypeStep
    else if step == 2 then DescriptionStep
    else if 3 <= step <= 11 then DataStep(DataSteps[step - 3])
    else if step == 12 then SetupComplete
    else NoComponent
  }

  /** The step whose `setData` writes the slot. */
  function SlotStep(slot: Slot): (step: int)
    ensures 3 <= step <= 11 && StepComponent(step) == DataStep(slot)
  {
    match slot
    case Media => 3
    case Design => 4
    case Auth => 5
    case Pricing => 6
    case Payments => 7
    case Sitemap => 8
    case Storage => 9
    case Database => 10
    case Hosting => 11
  }

  /** No two steps write the same slot. */
  lemma SlotOwnedByOneStep(a: int, b: int)
    requires StepComponent(a).DataStep? && StepComponent(a) == StepComponent(b)
    ensures a == b
  {
  }

  /** `canProceed` of the first three steps (`None` for steps that take no such flag). */
  function CanProceed(step: int, f: FormData): Option<bool> {
    if step == 0 then Some(|JsTrim(f.projectName)| > 0)
    else if step == 1 then Some(f.isWebApp.Some?)
    else if step == 2 then Some(|JsTrim(f.description)| > 0)
    else None
  }

  /** A step may proceed exactly when its answer holds a non-blank character (or, for the
      website type, once a choice is made). */
  lemma CanProceedIff(f: FormData)
    ensures CanProceed(0, f) == Some(exists i | 0 <= i < |f.projectName| :: !IsJsWhitespace(f.projectName[i]))
    ensures CanProceed(1, f) == Some(f.isWebApp.Some?)
    ensures CanProceed(2, f) == Some(exists i | 0 <= i < |f.description| :: !IsJsWhitespace(f.description[i]))
  {
    StripShape(f.projectName, JsBlanks);
    StripShape(f.description, JsBlanks);
  }

  /** The wizard page's state. */
  class CreatePage {
    var currentStep: int
    var formData: FormData

    ghost predicate Valid()
      reads this
    {
      0 <= currentStep <= LastStep && formData.slots.Keys == AllSlots
    }

    constructor ()
      ensures Valid()
      ensures currentStep == 0 && formData == InitialForm()
    {
      currentStep := 0;
      formData := InitialForm();
    }

    /** The step the page renders is never the default case. */
    lemma AlwaysRendersAStep()
      requires Valid()
      ensures !StepComponent(currentStep).NoComponent?
    {
    }

    method GoNext()
      requires Valid()
      modifies this
      ensures Valid()
      ensures currentStep == NextStep(old(currentStep)) && formData == old(formData)
    {
      currentStep := NextStep(currentStep);
    }

    method GoBack()
      requires Valid()
      modifies this
      ensures Valid()
      ensures currentStep == PrevStep(old(currentStep)) && formData == old(formData)
    {
      currentStep := PrevStep(currentStep);
    }

    method Restart()
      modifies this
      ensures Valid()
      ensures currentStep == 0 && formData == InitialForm()
    {
      currentStep := 0;
      formData := InitialForm();
    }

    /** Step 0's `onChange`. */
    method SetProjectName(val: string)
      requires Valid()
      modifies this
      ensures Valid()
      ensures formData == old(formData).(projectName := val) && currentStep == old(currentStep)
    {
      formData := formData.(projectName := val);
    }

    /** Step 1's `onChange`. */
    method SetIsWebApp(val: bool)
      requires Valid()
      modifies this
      ensures Valid()
      ensures formData == old(formData).(isWebApp := Some(val)) && currentStep == old(currentStep)
    {
      formData := formData.(isWebApp := Some(val));
    }

    /** Step 2's `onChange`. */
    method SetDescription(val: string)
      requires Valid()
      modifies this
      ensures Valid()
      ensures formData == old(formData).(description := val) && currentStep == old(currentStep)
    {
      formData := formData.(description := val);
    }

    /** A `setData` closure of the page: `data => setFormData(f => ({ ...f, [slot]: data }))`.
        The slot is the one fixed when the page rendered the step, not read from the step
        current when the call arrives. */
    method SetStepData(slot: Slot, data: Value)
      requires Valid()
      modifies this
      ensures currentStep == old(currentStep) && Valid()
      ensures formData.slots == old(formData.slots)[slot := data]
      ensures formData.projectName == old(formData.projectName)
      ensures formData.isWebApp == old(formData.isWebApp)
      ensures formData.description == old(formData.description)
    {
      AllSlotsComplete(slot);
      formData := formData.(slots := formData.slots[slot := data]);
    }

    /** The host calls a data step makes, in order, through the callbacks the page bound when
        it rendered step `rendered`: `onNext` and `onBack` move the step, and `setData` writes
        that render's slot. */
    method Deliver(rendered: int, calls: seq<HostCall<Value>>)
      requires Valid() && StepComponent(rendered).DataStep?
      modifies this
      ensures Valid()
      ensures (currentStep, formData) ==
        AfterCalls(old(currentStep), old(formData), StepComponent(rendered).slot, calls)
    {
      var slot := StepComponent(rendered).slot;
      var i := 0;
      while i < |calls|
        invariant 0 <= i <= |calls| && Valid()
        invariant AfterCalls(currentStep, formData, slot, calls[i..]) ==
          AfterCalls(old(currentStep), old(formData), slot, calls)
      {
        assert calls[i..][0] == calls[i] && calls[i..][1..] == calls[i + 1..];
        match calls[i] {
          case OnNext => GoNext();
          case OnBack => GoBack();
          case SetData(d) => SetStepData(slot, d);
        }
        i := i + 1;
      }
    }
  }

  /** Every slot is one of the form's keys. */
  lemma AllSlotsComplete(slot: Slot)
    ensures slot in AllSlots
  {
  }

  /** The step and the form after a sequence of host calls through callbacks bound to the slot
      `rendered`. */
  function AfterCalls(step: int, f: FormData, rendered: Slot, calls: seq<HostCall<Value>>): (int, FormData)
    decreases |calls|
  {
    if calls == [] then (step, f)
    else
      match calls[0]
      case OnNext => AfterCalls(NextStep(step), f, rendered, calls[1..])
      case OnBack => AfterCalls(PrevStep(step), f, rendered, calls[1..])
      case SetData(d) => AfterCalls(step, f.(slots := f.slots[rendered := d]), rendered, calls[1..])
  }

  /** The step after the moves among the calls alone. */
  function Moved(step: int, calls: seq<HostCall<Value>>): int
    decreases |calls|
  {
    if calls == [] then step
    else
      match calls[0]
      case OnNext => Moved(NextStep(step), calls[1..])
      case OnBack => Moved(PrevStep(step), calls[1..])
      case SetData(_) => Moved(step, calls[1..])
  }

  /** The data of the last `setData` among the calls, if any. */
  function LastData(calls: seq<HostCall<Value>>): Option<Value>
    decreases |calls|
  {
    if calls == [] then None
    else
      match LastData(calls[1..])
      case Some(d) => Some(d)
      case None => if calls[0].SetData? then Some(calls[0].data) else None
  }

  /** The calls act on the step and on the form independently: the step follows the moves,
      the slot bound at render time ends with the last data handed to `setData`, and nothing
      else of the form changes. In particular it does not matter whether a step calls
      `onNext` before or after `setData`. */
  lemma {:induction false} AfterCallsSplit(step: int, f: FormData, rendered: Slot, calls: seq<HostCall<Value>>)
    decreases |calls|
    ensures AfterCalls(step, f, rendered, calls) ==
      (Moved(step, calls),
       match LastData(calls)
       case None => f
       case Some(d) => f.(slots := f.slots[rendered := d]))
  {
    if calls != [] {
      match calls[0]
      case OnNext => AfterCallsSplit(NextStep(step), f, rendered, calls[1..]);
      case OnBack => AfterCallsSplit(PrevStep(step), f, rendered, calls[1..]);
      case SetData(d) =>
        var g := f.(slots := f.slots[rendered := d]);
        AfterCallsSplit(step, g, rendered, calls[1..]);
        if LastData(calls[1..]).Some? {
          var e := LastData(calls[1..]).value;
          assert g.(slots := g.slots[rendered := e]) == f.(slots := f.slots[rendered := e]);
        }
    }
  }

  /** The design step's Continue calls `onNext` and then `setData(palettes)`. Through the
      callbacks bound when step 4 rendered, the page moves on to step 5 and the palettes land
      in the design slot; the auth slot of the step now shown is untouched. */
  lemma DesignContinueStoresDesign(f: FormData, palettes: Value)
    requires f.slots.Keys == AllSlots
    ensures var (step, g) := AfterCalls(SlotStep(Design), f, StepComponent(SlotStep(Design)).slot,
                                        [OnNext, SetData(palettes)]);
      && step == SlotStep(Auth) && g.slots.Keys == AllSlots
      && g.slots[Design] == palettes && g.slots[Auth] == f.slots[Auth]
  {
    var calls: seq<HostCall<Value>> := [OnNext, SetData(palettes)];
    AfterCallsSplit(SlotStep(Design), f, Design, calls);
    assert calls[1..] == [SetData(palettes)] && calls[1..][1..] == [];
    assert Moved(SlotStep(Auth), calls[1..]) == SlotStep(Auth);
    assert Moved(SlotStep(Design), calls) == SlotStep(Auth);
    assert LastData(calls[1..]) == Some(palettes);
    assert LastData(calls) == Some(palettes);
  }

  /** A data step's write changes its own slot and no other. */
  lemma WriteOneSlot(f: FormData, slot: Slot, data: Value)
    requires f.slots.Keys == AllSlots
    ensures var g := f.(slots := f.slots[slot := data]);
      && g.slots.Keys == AllSlots && g.slots[slot] == data
      && forall s | s != slot && s in AllSlots :: g.slots[s] == f.slots[s]
  {
  }
}
