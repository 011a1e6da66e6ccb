/**
 * The event entry form: its fields, the debt-violation hint, the friend
 * toggle, and the submission guard that turns the form into an
 * `AddEventInput` for the state container.
 */
module EventLogger {
  import opened Types
  import opened Sequences
  import opened Text
  import opened Calculations
  import FriendSelector
  import LifeBalance

  /** The form's fields; `value` is the slider reading. */
  datatype EventForm = EventForm(
    selectedType: EventType,
    description: string,
    value: int,
    sharedWith: seq<string>)

  /** The value slider's default reading. */
  const DefaultValue := 10

  const InitialForm := EventForm(M, "", DefaultValue, [])

  /** The readings the value slider offers: 1 to 20 in steps of 1. */
  predicate OnValueSlider(v: int)
  {
    1 <= v <= 20
  }

  /** The hint shown when the selected kind goes against the forecast. */
  predicate WouldViolateDebt(debt: DebtState, form: EventForm)
    ensures WouldViolateDebt(debt, form) <==> debt.status != Balanced && form.selectedType != Owed(debt.status)
  {
    ViolatesDebt(debt.status, form.selectedType)
  }

  /** Checking a friend's box: the selection toggles that id and nothing
      else in the form changes. */
  function ToggleFriend(form: EventForm, friendId: string): (r: EventForm)
    ensures r.selectedType == form.selectedType && r.description == form.description && r.value == form.value
    ensures FriendSelector.Elements(r.sharedWith)
      == if friendId in form.sharedWith then FriendSelector.Elements(form.sharedWith) - {friendId}
         else FriendSelector.Elements(form.sharedWith) + {friendId}
    ensures friendId !in form.sharedWith ==> r.sharedWith == form.sharedWith + [friendId]
    ensures friendId in form.sharedWith ==> r.sharedWith == Filter(form.sharedWith, FriendSelector.IsNot(friendId))
  {
    form.(sharedWith := FriendSelector.Toggle(form.sharedWith, friendId))
  }

  datatype Submission = Submission(input: Option<AddEventInput>, form: EventForm)

  /** Submitting: a blank (whitespace-only) description submits nothing and
      leaves the form as it is. Otherwise the input carries the selected
      kind, the slider value and the trimmed description, and shares with
      the selected friends only for a G; the form then clears the
      description and selection and puts the slider back to 10, keeping the
      selected kind. */
  function Submit(form: EventForm): (r: Submission)
    ensures r.input.None? <==> AllWhitespace(form.description)
    ensures r.input.None? ==> r.form == form
    ensures r.input.Some? ==>
      && r.input.value.kind == form.selectedType
      && r.input.value.value == form.value
      && |r.input.value.description| > 0
      && r.input.value.description == Trim(form.description)
      && r.input.value.sharedWith == Some(if form.selectedType == G then form.sharedWith else [])
      && r.form == InitialForm.(selectedType := form.selectedType)
  {
    var description := Trim(form.description);
    if description == [] then Submission(None, form)
    else
      var shared := if form.selectedType == G then form.sharedWith else [];
      Submission(Some(AddEventInput(form.selectedType, form.value, description, Some(shared))),
                 EventForm(form.selectedType, "", DefaultValue, []))
  }

  /** The form's hint and the state container's warning agree: submitting
      a form whose hint is shown logs the event with a warning, and only
      then. Whatever the hint, the event is logged. */
  lemma HintMatchesWarning(s: LifeBalance.State, form: EventForm, now: int)
    requires !AllWhitespace(form.description)
    ensures var input := Submit(form).input.value;
      var added := LifeBalance.AddEvent(s, input, now);
      && |added.state.events| == |s.events| + 1
      && (added.warning.Some? <==> WouldViolateDebt(CalculateDebt(s.events), form))
  {
  }

  /** An M submitted through the form is never shared with anyone, and its
      description is never blank. */
  lemma SubmittedEvent(s: LifeBalance.State, form: EventForm, now: int)
    requires !AllWhitespace(form.description)
    ensures var input := Submit(form).input.value;
      var e := LifeBalance.AddEvent(s, input, now).state.events[|s.events|];
      && (e.kind == M ==> e.sharedWith == [])
      && (e.kind == G ==> e.sharedWith == form.sharedWith)
      && e.description == Trim(form.description) && !AllWhitespace(e.description)
  {
    var d := Trim(form.description);
    assert |d| > 0;
    assert !IsWhitespace(d[0]);
  }

  /** Submitting keeps the form's type and leaves nothing else to resubmit:
      a second submit right after a successful one submits nothing. */
  lemma SubmitResets(form: EventForm)
    requires !AllWhitespace(form.description)
    ensures Submit(Submit(form).form).input.None?
    ensures OnValueSlider(Submit(form).form.value)
  {
  }
}
