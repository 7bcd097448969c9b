/** The password strength meter: a score from length thresholds and ASCII
    character classes, mapped to a fill width, a colour and a label. */
module Strength {

  predicate IsUpper(c: char) { 'A' <= c <= 'Z' }
  predicate IsLower(c: char) { 'a' <= c <= 'z' }
  /** `\d` matches the ASCII digits only. */
  predicate IsDigit(c: char) { '0' <= c <= '9' }
  /** The class `[!@#$%^&*(),.?":{}|<>]`. */
  predicate IsSpecial(c: char) {
    c == '!' || c == '@' || c == '#' || c == '$' || c == '%' ||
    c == '^' || c == '&' || c == '*' || c == '(' || c == ')' ||
    c == ',' || c == '.' || c == '?' || c == '\"' || c == ':' ||
    c == '{' || c == '}' || c == '|' || c == '<' || c == '>'
  }

  predicate HasUpper(s: string) { exists i | 0 <= i < |s| :: IsUpper(s[i]) }
  predicate HasLower(s: string) { exists i | 0 <= i < |s| :: IsLower(s[i]) }
  predicate HasDigit(s: string) { exists i | 0 <= i < |s| :: IsDigit(s[i]) }
  predicate HasSpecial(s: string) { exists i | 0 <= i < |s| :: IsSpecial(s[i]) }

  /** `n` points when `b` holds. */
  function Points(b: bool, n: nat): nat { if b then n else 0 }

  /** The score: one point per length threshold (4 and 8), one per letter
      case and for a digit, two for a special character. */
  function Score(s: string): (r: nat)
    ensures r <= 7
    ensures r == 7 <==> |s| >= 8 && HasUpper(s) && HasLower(s) && HasDigit(s) && HasSpecial(s)
  {
    Points(|s| >= 4, 1) + Points(|s| >= 8, 1) +
    Points(HasUpper(s), 1) + Points(HasLower(s), 1) + Points(HasDigit(s), 1) +
    Points(HasSpecial(s), 2)
  }

  datatype Tier = Blank | VeryWeak | Medium | Strong

  /** The colour classes the meter uses: grey when empty, then red, yellow, green. */
  datatype Tone = Gray | Red | Yellow | Green

  /** An empty password has no tier; otherwise the score picks one of three. */
  function TierOf(s: string): Tier {
    if |s| == 0 then Blank
    else if Score(s) <= 1 then VeryWeak
    else if Score(s) <= 3 then Medium
    else Strong
  }

  function Rank(t: Tier): nat {
    match t
    case Blank => 0
    case VeryWeak => 1
    case Medium => 2
    case Strong => 3
  }

  /** The bar's fill, in percent. */
  function Width(t: Tier): nat {
    match t
    case Blank => 0
    case VeryWeak => 30
    case Medium => 65
    case Strong => 100
  }

  function BarTone(t: Tier): Tone {
    match t
    case Blank => Gray
    case VeryWeak => Red
    case Medium => Yellow
    case Strong => Green
  }

  function Label(t: Tier): string {
    match t
    case Blank => ""
    case VeryWeak => "Very Weak"
    case Medium => "Medium"
    case Strong => "Strong"
  }

  /** The input handler's computation of the bar: the counter is reset and
      bumped criterion by criterion, then mapped to a width and a colour.
      The counter stays 0 for the empty password. */
  method Measure(val: string) returns (strength: nat, width: nat, tone: Tone)
    ensures strength == if |val| > 0 then Score(val) else 0
    ensures width == Width(TierOf(val)) && tone == BarTone(TierOf(val))
  {
    width, tone, strength := 0, Gray, 0;
    if |val| > 0 {
      var hasUpperCase := HasUpper(val);
      var hasLowerCase := HasLower(val);
      var hasNumbers := HasDigit(val);
      var hasSpecialChars := HasSpecial(val);

      strength := 0;
      if |val| >= 4 { strength := strength + 1; }
      if |val| >= 8 { strength := strength + 1; }
      if hasUpperCase { strength := strength + 1; }
      if hasLowerCase { strength := strength + 1; }
      if hasNumbers { strength := strength + 1; }
      if hasSpecialChars { strength := strength + 2; }

      if strength <= 1 {
        width, tone := 30, Red;
      } else if strength <= 3 {
        width, tone := 65, Yellow;
      } else {
        width, tone := 100, Green;
      }
    }
  }

  /** What the meter shows: the bar's width and colour and the label's text
      and colour. */
  datatype Meter = Meter(width: nat, barTone: Tone, text: string, textTone: Tone)

  /** The meter after the handler has run on `val`. The label exists only on
      some pages; when it does, its colour is set only for a non-empty password. */
  function MeterAfter(m: Meter, val: string, hasLabel: bool): Meter {
    var t := TierOf(val);
    Meter(Width(t), BarTone(t),
      if hasLabel then Label(t) else m.text,
      if hasLabel && |val| > 0 then BarTone(t) else m.textTone)
  }

  /** The meter shows only the latest password: running the handler again
      replaces everything the earlier run showed, except the label's colour,
      which an empty password leaves as it was. */
  lemma {:induction false} MeterLatestWins(m: Meter, a: string, b: string, hasLabel: bool)
    ensures var later := MeterAfter(MeterAfter(m, a, hasLabel), b, hasLabel);
      later.(textTone := m.textTone) == MeterAfter(m, b, hasLabel).(textTone := m.textTone) &&
      (|b| > 0 ==> later == MeterAfter(m, b, hasLabel))
  {
  }

  /** An empty password empties the bar, greys it and clears the label. */
  lemma EmptyPasswordReading()
    ensures TierOf("") == Blank
    ensures Width(TierOf("")) == 0 && BarTone(TierOf("")) == Gray && Label(TierOf("")) == ""
  {
  }

  /** Any non-empty password fills the bar to 30, 65 or 100 percent. */
  lemma NonEmptyFills(s: string)
    requires |s| > 0
    ensures Width(TierOf(s)) in {30, 65, 100}
  {
  }

  /** Even a password that meets no criterion fills the bar: a single space
      scores 0 and is shown as Very Weak. */
  lemma SingleSpaceIsVeryWeak()
    ensures Score(" ") == 0 && TierOf(" ") == VeryWeak && Width(TierOf(" ")) == 30
  {
    assert !IsSpecial(" "[0]);
  }

  /** The bands of the score, and the bar and label agreeing on each. */
  lemma TierBands(s: string)
    requires |s| > 0
    ensures Score(s) <= 1 <==> Width(TierOf(s)) == 30 && Label(TierOf(s)) == "Very Weak"
    ensures 2 <= Score(s) <= 3 <==> Width(TierOf(s)) == 65 && Label(TierOf(s)) == "Medium"
    ensures Score(s) >= 4 <==> Width(TierOf(s)) == 100 && Label(TierOf(s)) == "Strong"
  {
  }

  /** The bar and the label never disagree: each determines the other. */
  lemma BarAgreesWithLabel(s: string, t: string)
    ensures Width(TierOf(s)) == Width(TierOf(t)) <==> Label(TierOf(s)) == Label(TierOf(t))
    ensures Width(TierOf(s)) == Width(TierOf(t)) <==> BarTone(TierOf(s)) == BarTone(TierOf(t))
  {
  }

  /** Every criterion survives appending characters, so the score never drops. */
  lemma {:induction false} ScoreMonotone(s: string, t: string)
    ensures Score(s) <= Score(s + t)
  {
    var u := s + t;
    if HasUpper(s) { var i :| 0 <= i < |s| && IsUpper(s[i]); assert u[i] == s[i]; }
    if HasLower(s) { var i :| 0 <= i < |s| && IsLower(s[i]); assert u[i] == s[i]; }
    if HasDigit(s) { var i :| 0 <= i < |s| && IsDigit(s[i]); assert u[i] == s[i]; }
    if HasSpecial(s) { var i :| 0 <= i < |s| && IsSpecial(s[i]); assert u[i] == s[i]; }
  }

  /** Hence the tier never drops either. */
  lemma TierMonotone(s: string, t: string)
    ensures Rank(TierOf(s)) <= Rank(TierOf(s + t))
  {
    ScoreMonotone(s, t);
  }

  lemma ScoreExampleShort()
    ensures Score("ab") == 1 && TierOf("ab") == VeryWeak
  {
    assert IsLower("ab"[0]);
  }

  lemma ScoreExampleLower()
    ensures Score("abcdefgh") == 3 && TierOf("abcdefgh") == Medium
  {
    var p := "abcdefgh";
    assert IsLower(p[0]);
    assert !HasSpecial(p) by {
      forall i | 0 <= i < |p| ensures !IsSpecial(p[i]) {
        assert IsLower(p[i]);
      }
    }
  }

  lemma ScoreExampleMixed()
    ensures Score("Abcd123!") == 7 && TierOf("Abcd123!") == Strong
  {
    var p := "Abcd123!";
    assert IsUpper(p[0]) && IsLower(p[1]) && IsDigit(p[4]) && IsSpecial(p[7]);
  }
}
