/** The five fields of the registration form, the predicate each must
    satisfy and the message shown when it does not. The submit handler
    writes the predicates inline; the real-time table writes them again as
    lambdas over the field's value. Both are modelled, and shown to agree. */
module Fields {
  import opened Text

  datatype Field = FirstName | LastName | Email | Password | ConfirmPassword

  /** One value per field, e.g. the five current input values. */
  datatype PerField<T> = PerField(first: T, last: T, email: T, password: T, confirm: T) {

    function Get(f: Field): T {
      match f
      case FirstName => first
      case LastName => last
      case Email => email
      case Password => password
      case ConfirmPassword => confirm
    }

    /** Replaces the entry of `f` and no other. */
    function Set(f: Field, x: T): (r: PerField<T>)
      ensures r.Get(f) == x
      ensures forall g :: g != f ==> r.Get(g) == Get(g)
    {
      match f
      case FirstName => this.(first := x)
      case LastName => this.(last := x)
      case Email => this.(email := x)
      case Password => this.(password := x)
      case ConfirmPassword => this.(confirm := x)
    }
  }

  function Uniform<T>(x: T): (r: PerField<T>)
    ensures forall f :: r.Get(f) == x
  {
    PerField(x, x, x, x, x)
  }

  // ---------------------------------------------------------------- names

  /** `value.trim() !== ''` */
  predicate NameValid(s: string) {
    Trim(s) != ""
  }

  /** A name passes exactly when it holds a character that is not whitespace. */
  lemma NameValidIff(s: string)
    ensures NameValid(s) <==> exists k | 0 <= k < |s| :: !IsWhitespace(s[k])
  {
    TrimEmptyIff(s);
  }

  // ---------------------------------------------------------------- email

  /** A member of the class `[^\s@]`. */
  predicate Plain(c: char) {
    !IsWhitespace(c) && c != '@'
  }

  /** `s[lo..hi]` matches `[^\s@]*`, read one character at a time. */
  predicate PlainRun(s: string, lo: int, hi: int)
    requires 0 <= lo <= hi <= |s|
    decreases hi - lo
  {
    lo == hi || (Plain(s[lo]) && PlainRun(s, lo + 1, hi))
  }

  lemma {:induction false} PlainRunIff(s: string, lo: int, hi: int)
    requires 0 <= lo <= hi <= |s|
    ensures PlainRun(s, lo, hi) <==> forall k | lo <= k < hi :: Plain(s[k])
    decreases hi - lo
  {
    if lo < hi {
      PlainRunIff(s, lo + 1, hi);
    }
  }

  /** The language of `^[^\s@]+@[^\s@]+\.[^\s@]+$`: the whole string splits as
      a non-empty run of plain characters, `@`, a non-empty run, `.`, and a
      non-empty run. A plain run may itself contain dots. */
  predicate EmailPattern(s: string) {
    exists at, dot | 0 < at < |s| && at + 1 < dot < |s| - 1 ::
      s[at] == '@' && s[dot] == '.' &&
      PlainRun(s, 0, at) && PlainRun(s, at + 1, dot) && PlainRun(s, dot + 1, |s|)
  }

  /** Index of the first occurrence of `c`. */
  function IndexOf(s: string, c: char): (r: nat)
    requires c in s
    ensures r < |s| && s[r] == c
    ensures forall k | 0 <= k < r :: s[k] != c
  {
    if s[0] == c then 0 else 1 + IndexOf(s[1..], c)
  }

  /** The structural reading of a valid address: no whitespace anywhere,
      exactly one `@`, a non-empty local part before it, and a domain after
      it that holds a `.` that is neither its first nor its last character. */
  predicate WellFormedEmail(s: string) {
    (forall k | 0 <= k < |s| :: !IsWhitespace(s[k])) &&
    multiset(s)['@'] == 1 &&
    var at := IndexOf(s, '@');
    var domain := s[at + 1..];
    at > 0 && exists d | 0 < d < |domain| - 1 :: domain[d] == '.'
  }

  /** An `@` at `at` is the only one exactly when `multiset(s)['@'] == 1`. */
  lemma SingleAt(s: string, at: nat)
    requires at < |s| && s[at] == '@'
    ensures multiset(s)['@'] == 1 <==> forall k | 0 <= k < |s| && k != at :: s[k] != '@'
  {
    var a, b := s[..at], s[at + 1..];
    assert s == a + [s[at]] + b;
    assert multiset(s)['@'] == multiset(a)['@'] + 1 + multiset(b)['@'];
    if multiset(s)['@'] == 1 {
      forall k | 0 <= k < |s| && k != at ensures s[k] != '@' {
        if k < at {
          assert s[k] == a[k];
          assert '@' !in multiset(a);
        } else {
          assert s[k] == b[k - at - 1];
          assert '@' !in multiset(b);
        }
      }
    } else {
      if '@' in a {
        var i :| 0 <= i < |a| && a[i] == '@';
        assert s[i] == '@';
      } else {
        assert '@' in b;
        var i :| 0 <= i < |b| && b[i] == '@';
        assert s[at + 1 + i] == '@';
      }
    }
  }

  lemma EmailPatternIsWellFormed(s: string)
    requires EmailPattern(s)
    ensures WellFormedEmail(s)
  {
    var at, dot :| 0 < at < |s| && at + 1 < dot < |s| - 1 &&
      s[at] == '@' && s[dot] == '.' &&
      PlainRun(s, 0, at) && PlainRun(s, at + 1, dot) && PlainRun(s, dot + 1, |s|);
    PlainRunIff(s, 0, at);
    PlainRunIff(s, at + 1, dot);
    PlainRunIff(s, dot + 1, |s|);
    forall k | 0 <= k < |s| && k != at ensures Plain(s[k]) {
      if k == dot { assert s[k] == '.'; }
    }
    assert forall k | 0 <= k < |s| :: !IsWhitespace(s[k]);
    SingleAt(s, at);
    var i := IndexOf(s, '@');
    assert i == at;
    var domain := s[at + 1..];
    assert domain[dot - at - 1] == '.';
  }

  lemma WellFormedIsEmailPattern(s: string)
    requires WellFormedEmail(s)
    ensures EmailPattern(s)
  {
    var at := IndexOf(s, '@');
    var domain := s[at + 1..];
    var d :| 0 < d < |domain| - 1 && domain[d] == '.';
    var dot := at + 1 + d;
    assert s[dot] == '.';
    SingleAt(s, at);
    PlainRunIff(s, 0, at);
    PlainRunIff(s, at + 1, dot);
    PlainRunIff(s, dot + 1, |s|);
  }

  /** The regular expression and the structural description accept the
      same strings. */
  lemma EmailPatternIff(s: string)
    ensures EmailPattern(s) <==> WellFormedEmail(s)
  {
    if EmailPattern(s) { EmailPatternIsWellFormed(s); }
    if WellFormedEmail(s) { WellFormedIsEmailPattern(s); }
  }

  // ---------------------------------------------------------------- passwords

  /** `password.value.length >= 6` */
  predicate PasswordValid(s: string) {
    |s| >= 6
  }

  /** `confirmPassword.value === password.value` */
  predicate ConfirmValid(confirm: string, password: string) {
    confirm == password
  }

  // ---------------------------------------------------------------- the two tables

  /** The message shown under a field that fails its check. */
  /** The five messages, as the submit handler passes them. */
  function Messages(): (r: PerField<string>)
    ensures forall f :: r.Get(f) == Message(f)
  {
    PerField(Message(FirstName), Message(LastName), Message(Email), Message(Password), Message(ConfirmPassword))
  }

  function Message(f: Field): string {
    match f
    case FirstName => "First name is required"
    case LastName => "Last name is required"
    case Email => "Please enter a valid email address"
    case Password => "Password must be at least 6 characters"
    case ConfirmPassword => "Passwords do not match"
  }

  /** The five verdicts the submit handler passes to validateField, read
      from the current input values. */
  function SubmitChecks(values: PerField<string>): PerField<bool> {
    PerField(
      NameValid(values.first),
      NameValid(values.last),
      EmailPattern(values.email),
      PasswordValid(values.password),
      ConfirmValid(values.confirm, values.password))
  }

  /** The `validate` lambda of the real-time table, applied to the value
      typed into `f`; the confirm entry also reads the password's current value. */
  function LiveCheck(f: Field, val: string, password: string): bool {
    match f
    case FirstName => NameValid(val)
    case LastName => NameValid(val)
    case Email => EmailPattern(val)
    case Password => PasswordValid(val)
    case ConfirmPassword => val == password
  }

  /** On the same values, a real-time check and the check made at submit
      give the same verdict. */
  lemma SubmitAgreesWithLive(f: Field, values: PerField<string>)
    ensures SubmitChecks(values).Get(f) == LiveCheck(f, values.Get(f), values.password)
  {
  }

  /** Each check, spelled out as the accepted and the refused inputs. */
  lemma SubmitChecksMeaning(values: PerField<string>)
    ensures var ok := SubmitChecks(values);
      (ok.first <==> exists k | 0 <= k < |values.first| :: !IsWhitespace(values.first[k])) &&
      (ok.last <==> exists k | 0 <= k < |values.last| :: !IsWhitespace(values.last[k])) &&
      (ok.email <==> WellFormedEmail(values.email)) &&
      (ok.password <==> |values.password| >= 6) &&
      (ok.confirm <==> values.confirm == values.password)
  {
    NameValidIff(values.first);
    NameValidIff(values.last);
    EmailPatternIff(values.email);
  }

  // ---------------------------------------------------------------- examples

  lemma EmailAccepted()
    ensures EmailPattern("a@b.co")
  {
    var s := "a@b.co";
    assert s[1] == '@' && s[3] == '.';
    assert PlainRun(s, 0, 1) && PlainRun(s, 2, 3) && PlainRun(s, 4, 6);
  }

  lemma EmailRejected()
    ensures !EmailPattern("a@b")
    ensures !EmailPattern("a@@b.co")
    ensures !EmailPattern("a b@c.co")
  {
    var t := "a@@b.co";
    if EmailPattern(t) {
      EmailPatternIsWellFormed(t);
    }
    var u := "a b@c.co";
    if EmailPattern(u) {
      EmailPatternIsWellFormed(u);
    }
  }

  /** A complete, correct registration passes all five checks; mistyping
      the confirmation fails that check alone. */
  lemma RegistrationExample()
    ensures var ok := SubmitChecks(PerField("Ann", "Lee", "a@b.co", "secret", "secret"));
      ok.first && ok.last && ok.email && ok.password && ok.confirm
    ensures var ok := SubmitChecks(PerField("Ann", "Lee", "a@b.co", "secret", "secreT"));
      ok.first && ok.last && ok.email && ok.password && !ok.confirm
  {
    NameValidIff("Ann");
    NameValidIff("Lee");
    assert !IsWhitespace("Ann"[0]) && !IsWhitespace("Lee"[0]);
    EmailAccepted();
  }

  lemma NameAndPasswordExamples()
    ensures !NameValid("") && !NameValid(" \t\n")
    ensures NameValid(" Ann ")
    ensures !PasswordValid("abcde") && PasswordValid("abcdef")
  {
    NameValidIff(" \t\n");
    NameValidIff(" Ann ");
    assert !IsWhitespace(" Ann "[1]);
  }
}
