/**
 * The add-friend dialog: its fields, the coefficient slider, and the
 * submission guard that turns the dialog into an `AddFriendInput`.
 */
module NetworkPanel {
  import opened Types
  import opened Sequences
  import opened Text

  datatype FriendForm = FriendForm(open: bool, name: string, coefficient: real)

  /** The coefficient slider's default reading. */
  const DefaultCoefficient: real := 0.5

  const InitialForm := FriendForm(false, "", DefaultCoefficient)

  /** The readings the coefficient slider offers: 0.1 to 1.0 in steps of 0.1. */
  function CoefficientStops(): (r: seq<real>)
    ensures |r| == 10 && r[0] == 0.1 && r[9] == 1.0
    ensures forall i :: 0 <= i < |r| ==> DocumentedCoefficient(r[i])
    ensures forall i :: 0 < i < |r| ==> r[i] - r[i - 1] == 0.1
  {
    seq(10, i requires 0 <= i < 10 => (i + 1) as real / 10.0)
  }

  predicate OnCoefficientSlider(rho: real)
  {
    rho in CoefficientStops()
  }

  /** The default reading is one the slider offers. */
  lemma DefaultOnSlider()
    ensures OnCoefficientSlider(DefaultCoefficient)
  {
    assert CoefficientStops()[4] == 0.5;
  }

  datatype Submission = Submission(input: Option<AddFriendInput>, form: FriendForm)

  /** Submitting: a blank (whitespace-only) name submits nothing and leaves
      the dialog as it is. Otherwise the input carries the trimmed name and
      the slider's coefficient unchanged, and the dialog closes and resets
      to an empty name and 0.5. */
  function Submit(form: FriendForm): (r: Submission)
    ensures r.input.None? <==> AllWhitespace(form.name)
    ensures r.input.None? ==> r.form == form
    ensures r.input.Some? ==>
      && r.input.value.name == Trim(form.name) && |r.input.value.name| > 0
      && r.input.value.rho == form.coefficient
      && r.form == InitialForm
  {
    var name := Trim(form.name);
    if name == [] then Submission(None, form)
    else Submission(Some(AddFriendInput(name, form.coefficient)), FriendForm(false, "", DefaultCoefficient))
  }

  /** A friend added through the dialog has a documented coefficient, and a
      name that neither starts nor ends with whitespace. */
  lemma SubmittedFriend(form: FriendForm)
    requires !AllWhitespace(form.name) && OnCoefficientSlider(form.coefficient)
    ensures var input := Submit(form).input.value;
      && DocumentedCoefficient(input.rho)
      && !IsWhitespace(input.name[0]) && !IsWhitespace(input.name[|input.name| - 1])
  {
    var stops := CoefficientStops();
    var i :| 0 <= i < |stops| && stops[i] == form.coefficient;
  }
}
