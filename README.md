# Registration form validation, modelled in Dafny

This project models the client-side logic of the registration page of a
small static website (`assets/js/script.js`). The rest of that script only
wires these pieces to the DOM. The model covers:

- the five field checks: first and last name (non-empty after `trim`),
  email (the anchored pattern `^[^\s@]+@[^\s@]+\.[^\s@]+$`), password (at
  least 6 characters) and confirmation (equal to the password);
- `validateField`, which writes one field's error message, `show-error`,
  `invalid` and red-border state and returns the verdict;
- the real-time `input` listeners built from the `fields` table;
- the submit handler, which validates all five fields and, on success,
  opens the modal, resets the form and empties the strength bar;
- the password strength meter, a score of 0 to 7 shown as a bar and a label;
- the password-visibility toggle.

Modules:

- `Text` (`text.dfy`): JavaScript's whitespace class `\s` and `String.prototype.trim`.
- `Fields` (`fields.dfy`): the field names, the five predicates and the messages.
  The email regular expression is written as the language it accepts, and it is
  proved equal to a structural description of a well-formed address.
- `Strength` (`strength.dfy`): the score function, the imperative handler
  `Measure` proved equal to it, and the tier, width, colour and label maps.
- `Form` (`form.dfy`): the class `RegistrationForm`. It holds the page's
  per-field state and has one method per handler. It also has value-level
  functions describing what submit leaves on the page, with lemmas about them.

Page elements that may or may not exist (an input, an error element, the
`.group` wrapper, the bar, the label, the modal, the toggle button) are
boolean flags fixed at construction. CSS class names are replaced by the
booleans and colours they stand for.

## Model

| member | source | states |
|---|---|---|
| Text.TrimStartShape | assets/js/script.js:117 | the left half of `trim` keeps a suffix of the value, drops only whitespace, and starts with a non-whitespace character unless empty |
| Text.TrimEndShape | assets/js/script.js:124 | the right half of `trim` keeps a prefix of the value, drops only whitespace, and ends with a non-whitespace character unless empty |
| Text.TrimIsSlice | assets/js/script.js:165-166 | `trim` returns a slice of its input with only whitespace cut on both sides; a non-empty result starts and ends with non-whitespace |
| Text.TrimEmptyIff | assets/js/script.js:117 | a trimmed value is empty exactly when every character is whitespace |
| Fields.NameValidIff | assets/js/script.js:117 | a name passes iff it contains a non-whitespace character, so a whitespace-only name fails |
| Fields.PlainRunIff | assets/js/script.js:128 | the character-by-character reading of `[^\s@]*` holds iff every character in the range is neither whitespace nor `@` |
| Fields.IndexOf | assets/js/script.js:128 | the index returned holds the character and no earlier index does (first occurrence) |
| Fields.EmailPatternIsWellFormed | assets/js/script.js:128-132 | every string the email pattern accepts has no whitespace, exactly one `@`, a non-empty local part and a domain with an inner `.` |
| Fields.WellFormedIsEmailPattern | assets/js/script.js:128-132 | every structurally well-formed address is accepted by the email pattern |
| Fields.EmailPatternIff | assets/js/script.js:170 | the email pattern used by submit and by the real-time check accepts exactly the well-formed addresses |
| Fields.EmailAccepted | assets/js/script.js:128 | `a@b.co` is accepted |
| Fields.EmailRejected | assets/js/script.js:128 | `a@b`, `a@@b.co` and `a b@c.co` are rejected |
| Fields.NameAndPasswordExamples | assets/js/script.js:117-139 | empty and whitespace-only names fail and ` Ann ` passes; a 5-character password fails and a 6-character one passes |
| Fields.SubmitChecksMeaning | assets/js/script.js:114-148 | each of the five submit verdicts holds iff: the name has a non-whitespace character (for each name), the email is well formed, the password has at least 6 characters, the confirmation equals the password |
| Fields.SubmitAgreesWithLive | assets/js/script.js:164-185 | on the same values, the real-time table's predicate for each field gives the same verdict as the submit handler |
| Fields.RegistrationExample | assets/js/script.js:114-151 | a correct registration passes all five checks; a confirmation differing in one letter fails that check alone |
| Strength.Score | assets/js/script.js:63-74 | the score never exceeds 7, and is 7 exactly when the password has 8 or more characters and all four character classes |
| Strength.Measure | assets/js/script.js:57-86 | the step-by-step counter equals the score function (0 for an empty password), and the width and colour chosen equal the tier's |
| Strength.EmptyPasswordReading | assets/js/script.js:58-94 | an empty password gives width 0, the grey colour and an empty label |
| Strength.NonEmptyFills | assets/js/script.js:76-88 | any non-empty password fills the bar to exactly 30, 65 or 100 percent |
| Strength.SingleSpaceIsVeryWeak | assets/js/script.js:62-78 | a single space scores 0 yet fills the bar to 30 percent as Very Weak |
| Strength.TierBands | assets/js/script.js:76-104 | for a non-empty password: a score of at most 1 iff 30% and "Very Weak", 2 to 3 iff 65% and "Medium", at least 4 iff 100% and "Strong" |
| Strength.BarAgreesWithLabel | assets/js/script.js:76-104 | two passwords get the same bar width iff they get the same label, and iff they get the same bar colour |
| Strength.ScoreMonotone | assets/js/script.js:63-74 | appending characters to a password never lowers its score |
| Strength.TierMonotone | assets/js/script.js:69-85 | appending characters never lowers the bar's tier |
| Strength.ScoreExampleShort | assets/js/script.js:63-78 | `ab` scores 1 and is Very Weak |
| Strength.ScoreExampleLower | assets/js/script.js:63-81 | `abcdefgh` scores 3 and is Medium |
| Strength.ScoreExampleMixed | assets/js/script.js:63-84 | `Abcd123!` scores 7 and is Strong |
| Strength.MeterLatestWins | assets/js/script.js:88-105 | after two runs of the strength handler, the bar and the label show only the later password; only the label's colour can survive, and only when the later password is empty |
| Form.Toggled | assets/js/script.js:17-18 | the toggle always changes the input's type |
| Form.ToggleTwiceRestores | assets/js/script.js:17-18 | toggling twice restores the original type |
| Form.RenderedVerdict | assets/js/script.js:30-47 | with all elements present, the error is shown, the group is invalid and the border is red iff the check failed; a failure shows the given message |
| Form.LatestVerdictWins | assets/js/script.js:32-47 | whichever elements exist, what is visible after two validations depends only on the second |
| Form.ValidateIdempotent | assets/js/script.js:32-47 | validating again with the same verdict and message changes nothing |
| Form.AllPassIff | assets/js/script.js:151 | the aggregate `&&` of the five verdicts holds iff every field's verdict holds |
| Form.SubmitShowsEveryError | assets/js/script.js:114-148 | with every input present, submit checks every field (no short-circuit): each failing field shows its own message and is marked invalid, and each passing one is not |
| Form.SubmitStopsAtMissingInput | assets/js/script.js:114-148 | when an input is missing, exactly the fields before it are validated; that field and the later ones keep their feedback |
| Form.OnlyTheFailingFieldShows | assets/js/script.js:114-151 | with one failing field and all elements present, the aggregate fails and only that field shows an error, with its message |
| Form.RegistrationForm.constructor | assets/js/script.js:53-54 | the page starts with empty values, no errors, a masked password and a grey, empty bar |
| Form.RegistrationForm.ValidateField | assets/js/script.js:25-50 | returns false when the input is missing and the verdict otherwise; changes only that field's feedback, as the verdict dictates |
| Form.RegistrationForm.OnPasswordInput | assets/js/script.js:56-106 | the meter afterwards shows the width, colour and label of the password's tier; without a label element only the bar changes |
| Form.RegistrationForm.LiveValidate | assets/js/script.js:187-196 | a real-time listener renders its table entry's verdict on its own field only; the confirm listener does nothing when the password input is missing |
| Form.RegistrationForm.Input | assets/js/script.js:187-198 | typing into a field updates its value, re-runs the meter for the password, and re-validates that field only (not the confirmation when the password changes) |
| Form.RegistrationForm.ValidateAll | assets/js/script.js:114-148 | the five validateField calls leave the feedback described by `SubmitFeedback`, and yield the aggregate or the first missing input |
| Form.RegistrationForm.ValidateRest | assets/js/script.js:129-148 | the last three calls change only the email, password and confirmation feedback and yield their aggregate or the first missing input |
| Form.RegistrationForm.Submit | assets/js/script.js:110-161 | feedback as `SubmitFeedback` of the current values; only when all five pass and the modal exists are the values cleared, the modal shown and the bar's width set to 0, with the label and colour kept; otherwise nothing else changes |
| Form.RegistrationForm.ShowSuccess | assets/js/script.js:152-159 | the modal is shown, every value is cleared and the bar's width is 0 when the bar exists |
| Form.RegistrationForm.TogglePassword | assets/js/script.js:15-23 | the password's type flips exactly when both the button and the input exist |

## Left out

- DOM lookups and `closest('.group')`: each element's presence is a flag fixed when the form is built.
- Event-listener registration is not modelled. Each listener is a method, called in the order the script registers it (the strength handler before the password's real-time listener).
- `e.preventDefault()` and the page's own submission: there is no navigation to model.
- Error-element animation: the forced reflow, the `scrollHeight` height and the 200 ms `setTimeout` that removes `show-error` are timing effects. Hiding is modelled as immediate.
- CSS class strings: they become booleans (`errorShown`, `groupInvalid`, `borderRed`) and the `Tone` colours.
- `closeModal` and the modal's CSS classes: only "the modal was shown" is recorded. Closing it is UI only.
- The eye icon swapped by `innerHTML` in the toggle: UI only; the input's type is modelled.
- Text semantics: strings are sequences of Unicode code points. UTF-16 `length` and surrogate pairs are not modelled, and `\s` and `trim` use JavaScript's fixed set of whitespace code points.
- `form.reset()`: it restores the markup's default values. The markup is not part of this model, so they are taken to be empty.
- The bar's inline width before the first input is not set by the script; the model starts it at 0.
- Throwing when an input is missing: reading `.value` of a missing input throws a TypeError. In submit this produces `Aborted`, and the fields checked before it keep their new feedback. A real-time confirm listener with no password input does nothing.
- Order of evaluation in submit: the five verdicts are computed from the values before any validateField call. This is exact, because validateField never changes a value.
