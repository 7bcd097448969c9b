/** The registration page's state and its event handlers: per-field error
    feedback written by validateField, the real-time `input` listeners, the
    submit handler, the strength meter and the password-visibility toggle.
    Page elements are reduced to flags saying whether they exist, and CSS
    classes to the booleans and colours they stand for. */
module Form {
  import opened Text
  import opened Fields
  import opened Strength

  datatype Option<T> = None | Some(value: T)

  /** Which of a field's elements exist on the page: the input, its error
      element, and the enclosing `.group` element. */
  datatype Slots = Slots(input: bool, errorEl: bool, group: bool)

  /** What the page shows for one field: whether the error element carries
      `show-error`, its text, whether the group is marked `invalid`, and
      whether the input carries the red border. */
  datatype Feedback = Feedback(errorShown: bool, errorText: string, groupInvalid: bool, borderRed: bool)

  const Clean := Feedback(false, "", false, false)

  /** The `type` of the password input. */
  datatype InputType = Masked | PlainText

  function Toggled(t: InputType): (r: InputType)
    ensures r != t
  {
    if t == Masked then PlainText else Masked
  }

  lemma ToggleTwiceRestores(t: InputType)
    ensures Toggled(Toggled(t)) == t
  {
  }

  /** The feedback of one field after validateField has rendered `isValid`
      with message `msg`, for a field whose input exists. The error text is
      written only when the field fails, so a passing field keeps the old
      text, hidden. */
  function AfterValidate(fb: Feedback, s: Slots, isValid: bool, msg: string): Feedback {
    var hasError := !isValid;
    Feedback(
      if s.errorEl then hasError else fb.errorShown,
      if s.errorEl && hasError then msg else fb.errorText,
      if s.group then hasError else fb.groupInvalid,
      hasError)
  }

  /** What a user can see of a field's feedback: the error text counts only
      while it is shown. */
  function Visible(fb: Feedback): Feedback {
    fb.(errorText := if fb.errorShown then fb.errorText else "")
  }

  /** With every element present, the field looks invalid exactly when the
      check failed, and then shows the given message. */
  lemma RenderedVerdict(fb: Feedback, isValid: bool, msg: string)
    ensures var r := AfterValidate(fb, Slots(true, true, true), isValid, msg);
      (r.errorShown <==> !isValid) && (r.groupInvalid <==> !isValid) && (r.borderRed <==> !isValid) &&
      (!isValid ==> r.errorText == msg)
  {
  }

  /** What the user sees depends only on the latest verdict, whichever
      elements exist: validating twice looks like validating once. */
  lemma {:induction false} LatestVerdictWins(fb: Feedback, s: Slots, v1: bool, m1: string, v2: bool, m2: string)
    ensures Visible(AfterValidate(AfterValidate(fb, s, v1, m1), s, v2, m2)) == Visible(AfterValidate(fb, s, v2, m2))
  {
  }

  /** Re-validating with the same verdict changes nothing. */
  lemma ValidateIdempotent(fb: Feedback, s: Slots, isValid: bool, msg: string)
    ensures AfterValidate(AfterValidate(fb, s, isValid, msg), s, isValid, msg) == AfterValidate(fb, s, isValid, msg)
  {
  }

  // ---------------------------------------------------------------- submit, as values

  /** How a submit ends: reading `.value` of a missing input throws a
      TypeError before validateField is reached, or all five are checked. */
  datatype SubmitOutcome = Aborted(at: Field) | Completed(success: bool)

  /** The first field, in the order submit checks them, whose input is missing. */
  function FirstAbsent(slots: PerField<Slots>): Option<Field> {
    if !slots.first.input then Some(FirstName)
    else if !slots.last.input then Some(LastName)
    else if !slots.email.input then Some(Email)
    else if !slots.password.input then Some(Password)
    else if !slots.confirm.input then Some(ConfirmPassword)
    else None
  }

  /** Submit reaches validateField for `f`: no input up to and including `f`'s is missing. */
  predicate Reached(slots: PerField<Slots>, f: Field) {
    match f
    case FirstName => slots.first.input
    case LastName => slots.first.input && slots.last.input
    case Email => slots.first.input && slots.last.input && slots.email.input
    case Password => slots.first.input && slots.last.input && slots.email.input && slots.password.input
    case ConfirmPassword => FirstAbsent(slots) == None
  }

  /** The feedback of field `f` after a submit whose five verdicts are `ok`. */
  function SubmitFeedbackOf(fb: PerField<Feedback>, slots: PerField<Slots>, ok: PerField<bool>, msgs: PerField<string>, f: Field): Feedback {
    if Reached(slots, f) then AfterValidate(fb.Get(f), slots.Get(f), ok.Get(f), msgs.Get(f))
    else fb.Get(f)
  }

  /** The feedback of all five fields after a submit whose verdicts are `ok`. */
  function SubmitFeedback(fb: PerField<Feedback>, slots: PerField<Slots>, ok: PerField<bool>, msgs: PerField<string>): PerField<Feedback> {
    PerField(
      SubmitFeedbackOf(fb, slots, ok, msgs, FirstName),
      SubmitFeedbackOf(fb, slots, ok, msgs, LastName),
      SubmitFeedbackOf(fb, slots, ok, msgs, Email),
      SubmitFeedbackOf(fb, slots, ok, msgs, Password),
      SubmitFeedbackOf(fb, slots, ok, msgs, ConfirmPassword))
  }

  /** The aggregate `&&` of the five verdicts. */
  predicate AllPass(ok: PerField<bool>) {
    ok.first && ok.last && ok.email && ok.password && ok.confirm
  }

  /** The aggregate holds exactly when each of the five verdicts does. */
  lemma AllPassIff(ok: PerField<bool>)
    ensures AllPass(ok) <==> forall f :: ok.Get(f)
  {
    if AllPass(ok) {
      forall f ensures ok.Get(f) {
        match f
        case FirstName =>
        case LastName =>
        case Email =>
        case Password =>
        case ConfirmPassword =>
      }
    }
    if forall f :: ok.Get(f) {
      assert ok.Get(FirstName) && ok.Get(LastName) && ok.Get(Email) && ok.Get(Password) && ok.Get(ConfirmPassword);
    }
  }

  /** Submit does not stop at the first failure: every field is checked and
      every failing field shows its own message. */
  lemma SubmitShowsEveryError(fb: PerField<Feedback>, slots: PerField<Slots>, ok: PerField<bool>, msgs: PerField<string>, f: Field)
    requires FirstAbsent(slots) == None
    ensures var r := SubmitFeedback(fb, slots, ok, msgs).Get(f);
      (r.borderRed <==> !ok.Get(f)) &&
      (slots.Get(f).errorEl ==> (r.errorShown <==> !ok.Get(f))) &&
      (slots.Get(f).errorEl && !ok.Get(f) ==> r.errorText == msgs.Get(f)) &&
      (slots.Get(f).group ==> (r.groupInvalid <==> !ok.Get(f)))
  {
    assert Reached(slots, f);
    assert SubmitFeedback(fb, slots, ok, msgs).Get(f) == SubmitFeedbackOf(fb, slots, ok, msgs, f);
  }

  function Order(f: Field): nat {
    match f
    case FirstName => 0
    case LastName => 1
    case Email => 2
    case Password => 3
    case ConfirmPassword => 4
  }

  /** When the submit throws at a missing input, the fields before it were
      validated, and that field and the ones after it keep their feedback. */
  lemma SubmitStopsAtMissingInput(fb: PerField<Feedback>, slots: PerField<Slots>, ok: PerField<bool>, msgs: PerField<string>, f: Field, g: Field)
    requires FirstAbsent(slots) == Some(f)
    ensures Reached(slots, g) <==> Order(g) < Order(f)
    ensures Order(g) >= Order(f) ==> SubmitFeedback(fb, slots, ok, msgs).Get(g) == fb.Get(g)
  {
    assert SubmitFeedback(fb, slots, ok, msgs).Get(g) == SubmitFeedbackOf(fb, slots, ok, msgs, g);
  }

  /** With every element present and exactly one failing field, the
      aggregate fails and only that field shows an error, with its message. */
  lemma OnlyTheFailingFieldShows(fb: PerField<Feedback>, ok: PerField<bool>, bad: Field, g: Field)
    requires !ok.Get(bad)
    requires forall f :: f != bad ==> ok.Get(f)
    ensures !AllPass(ok)
    ensures SubmitFeedback(fb, Uniform(Slots(true, true, true)), ok, Messages()).Get(g).errorShown <==> g == bad
    ensures SubmitFeedback(fb, Uniform(Slots(true, true, true)), ok, Messages()).Get(bad).errorText == Message(bad)
  {
    var slots := Uniform(Slots(true, true, true));
    SubmitShowsEveryError(fb, slots, ok, Messages(), g);
    SubmitShowsEveryError(fb, slots, ok, Messages(), bad);
    AllPassIff(ok);
  }

  // ---------------------------------------------------------------- the page

  /** Real-time validation of `f` runs: its input exists, and for the
      confirm field the password input too (its lambda reads `password.value`,
      which throws otherwise). */
  predicate LiveRuns(slots: PerField<Slots>, f: Field) {
    slots.Get(f).input && (f == ConfirmPassword ==> slots.password.input)
  }

  class RegistrationForm {
    /** Which elements the page has; they never change. */
    const slots: PerField<Slots>
    const hasBar: bool
    const hasLabel: bool
    const hasModal: bool
    const hasToggle: bool

    var values: PerField<string>
    var feedback: PerField<Feedback>
    var passwordType: InputType
    var meter: Meter
    var modalShown: bool

    /** The page as loaded: empty inputs, no errors, a masked password and
        a grey, empty strength bar. */
    constructor (slots: PerField<Slots>, hasBar: bool, hasLabel: bool, hasModal: bool, hasToggle: bool)
      ensures this.slots == slots && this.hasBar == hasBar && this.hasLabel == hasLabel
      ensures this.hasModal == hasModal && this.hasToggle == hasToggle
      ensures values == Uniform("") && feedback == Uniform(Clean) && passwordType == Masked
      ensures meter == Meter(0, Gray, "", Gray) && !modalShown
    {
      this.slots, this.hasBar, this.hasLabel, this.hasModal, this.hasToggle := slots, hasBar, hasLabel, hasModal, hasToggle;
      values := Uniform("");
      feedback := Uniform(Clean);
      passwordType := Masked;
      meter := Meter(0, Gray, "", Gray);
      modalShown := false;
    }

    /** validateField: renders the verdict `isValid` on field `f` and returns
        it; with no input element it does nothing and returns false. Only
        `f`'s feedback changes. */
    method ValidateField(f: Field, isValid: bool, msg: string) returns (ok: bool)
      modifies this`feedback
      ensures ok == (slots.Get(f).input && isValid)
      ensures feedback == if slots.Get(f).input
        then old(feedback).Set(f, AfterValidate(old(feedback).Get(f), slots.Get(f), isValid, msg))
        else old(feedback)
    {
      if !slots.Get(f).input { return false; }
      var fb := feedback.Get(f);
      var hasError := !isValid;
      if slots.Get(f).errorEl {
        if hasError {
          fb := fb.(errorText := msg, errorShown := true);
        } else {
          fb := fb.(errorShown := false);
        }
      }
      if slots.Get(f).group {
        fb := fb.(groupInvalid := hasError);
      }
      fb := fb.(borderRed := hasError);
      feedback := feedback.Set(f, fb);
      return !hasError;
    }

    /** The strength handler on the password's `input` event. */
    method OnPasswordInput()
      modifies this`meter
      ensures meter == MeterAfter(old(meter), values.password, hasLabel)
    {
      var val := values.password;
      var strength, width, tone := Measure(val);
      var text, textTone := meter.text, meter.textTone;
      if hasLabel {
        if |val| == 0 {
          text := "";
        } else if strength <= 1 {
          text, textTone := "Very Weak", Red;
        } else if strength <= 3 {
          text, textTone := "Medium", Yellow;
        } else {
          text, textTone := "Strong", Green;
        }
      }
      meter := Meter(width, tone, text, textTone);
    }

    /** The real-time listener of field `f`: validates the field's current
        value with its entry of the real-time table. */
    method LiveValidate(f: Field)
      modifies this`feedback
      ensures feedback == if LiveRuns(slots, f)
        then old(feedback).Set(f, AfterValidate(old(feedback).Get(f), slots.Get(f), LiveCheck(f, values.Get(f), values.password), Message(f)))
        else old(feedback)
    {
      if LiveRuns(slots, f) {
        var _ := ValidateField(f, LiveCheck(f, values.Get(f), values.password), Message(f));
      }
    }

    /** The user types `v` into field `f`: the value changes, the strength
        handler runs for the password, and the field is validated in real
        time. No other field is re-validated, not even the confirm field
        when the password changes. */
    method Input(f: Field, v: string)
      modifies this`values, this`feedback, this`meter
      ensures values == if slots.Get(f).input then old(values).Set(f, v) else old(values)
      ensures meter == if f == Password && slots.password.input && hasBar
        then MeterAfter(old(meter), v, hasLabel) else old(meter)
      ensures feedback == if LiveRuns(slots, f)
        then old(feedback).Set(f, AfterValidate(old(feedback).Get(f), slots.Get(f), LiveCheck(f, v, values.password), Message(f)))
        else old(feedback)
    {
      if slots.Get(f).input {
        values := values.Set(f, v);
        if f == Password && hasBar {
          OnPasswordInput();
        }
        LiveValidate(f);
      }
    }

    /** The five calls of validateField the submit handler makes, in order,
        with verdicts `ok` and messages `msgs`; reading the value of a
        missing input throws and skips the rest. */
    method ValidateAll(ok: PerField<bool>, msgs: PerField<string>) returns (outcome: SubmitOutcome)
      modifies this`feedback
      ensures feedback == SubmitFeedback(old(feedback), slots, ok, msgs)
      ensures outcome == match FirstAbsent(slots)
        case Some(f) => Aborted(f)
        case None => Completed(AllPass(ok))
    {
      if !slots.first.input { return Aborted(FirstName); }
      var isFirstNameValid := ValidateField(FirstName, ok.first, msgs.first);
      if !slots.last.input { return Aborted(LastName); }
      var isLastNameValid := ValidateField(LastName, ok.last, msgs.last);
      outcome := ValidateRest(ok, msgs);
      if outcome.Completed? {
        outcome := Completed(isFirstNameValid && isLastNameValid && outcome.success);
      }
    }

    /** The last three of those calls, once both names were read. */
    method ValidateRest(ok: PerField<bool>, msgs: PerField<string>) returns (outcome: SubmitOutcome)
      requires slots.first.input && slots.last.input
      modifies this`feedback
      ensures feedback == old(feedback).(
        email := SubmitFeedbackOf(old(feedback), slots, ok, msgs, Email),
        password := SubmitFeedbackOf(old(feedback), slots, ok, msgs, Password),
        confirm := SubmitFeedbackOf(old(feedback), slots, ok, msgs, ConfirmPassword))
      ensures outcome == match FirstAbsent(slots)
        case Some(f) => Aborted(f)
        case None => Completed(ok.email && ok.password && ok.confirm)
    {
      if !slots.email.input { return Aborted(Email); }
      var isEmailValid := ValidateField(Email, ok.email, msgs.email);
      if !slots.password.input { return Aborted(Password); }
      var isPasswordValid := ValidateField(Password, ok.password, msgs.password);
      if !slots.confirm.input { return Aborted(ConfirmPassword); }
      var isConfirmValid := ValidateField(ConfirmPassword, ok.confirm, msgs.confirm);
      return Completed(isEmailValid && isPasswordValid && isConfirmValid);
    }

    /** The submit handler: the five checks on the current values are
        rendered in order by validateField; only when all pass and the modal
        exists is the modal shown, the form reset and the bar's width set to
        0. The strength label, the bar's colour and the password's type are
        left alone. */
    method Submit() returns (outcome: SubmitOutcome)
      modifies this`values, this`feedback, this`meter, this`modalShown
      ensures feedback == SubmitFeedback(old(feedback), slots, SubmitChecks(old(values)), Messages())
      ensures outcome == match FirstAbsent(slots)
        case Some(f) => Aborted(f)
        case None => Completed(AllPass(SubmitChecks(old(values))))
      ensures if outcome == Completed(true) && hasModal then
          values == Uniform("") && modalShown &&
          meter == (if hasBar then old(meter).(width := 0) else old(meter))
        else
          values == old(values) && modalShown == old(modalShown) && meter == old(meter)
    {
      outcome := ValidateAll(SubmitChecks(values), Messages());
      if outcome == Completed(true) && hasModal {
        ShowSuccess();
      }
    }

    /** The success branch: the modal opens, the form is reset and the bar
        emptied; the bar's colour and the label keep what they showed. */
    method ShowSuccess()
      modifies this`values, this`meter, this`modalShown
      ensures values == Uniform("") && modalShown
      ensures meter == if hasBar then old(meter).(width := 0) else old(meter)
    {
      modalShown := true;
      values := Uniform("");
      if hasBar {
        meter := meter.(width := 0);
      }
    }

    /** The visibility toggle: flips the password input between masked and
        plain text, when both the button and the input exist. */
    method TogglePassword()
      modifies this`passwordType
      ensures passwordType == if hasToggle && slots.password.input then Toggled(old(passwordType)) else old(passwordType)
    {
      if hasToggle && slots.password.input {
        var isPassword := passwordType == Masked;
        passwordType := if isPassword then PlainText else Masked;
      }
    }
  }
}
