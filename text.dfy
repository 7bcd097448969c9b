/** Characters and trimming as JavaScript sees them: the `\s` class of regular
    expressions and `String.prototype.trim` use the same set of characters
    (WhiteSpace and LineTerminator of ECMAScript). */
module Text {

  /** JavaScript's `\s`: TAB, LF, VT, FF, CR, the space separators of Unicode
      category Zs, LINE SEPARATOR, PARAGRAPH SEPARATOR and the byte order mark. */
  predicate IsWhitespace(c: char) {
    c == '\t' || c == '\n' || c == '\U{000B}' || c == '\U{000C}' || c == '\r' ||
    c == ' ' || c == '\U{00A0}' || c == '\U{1680}' ||
    ('\U{2000}' <= c <= '\U{200A}') ||
    c == '\U{2028}' || c == '\U{2029}' || c == '\U{202F}' || c == '\U{205F}' ||
    c == '\U{3000}' || c == '\U{FEFF}'
  }

  predicate AllWhitespace(s: string) {
    forall k | 0 <= k < |s| :: IsWhitespace(s[k])
  }

  /** Drops the leading whitespace. */
  function TrimStart(s: string): string {
    if s != [] && IsWhitespace(s[0]) then TrimStart(s[1..]) else s
  }

  /** Drops the trailing whitespace. */
  function TrimEnd(s: string): string {
    if s != [] && IsWhitespace(s[|s| - 1]) then TrimEnd(s[..|s| - 1]) else s
  }

  /** TrimStart keeps the suffix of `s` that starts at its first
      non-whitespace character. */
  lemma {:induction false} TrimStartShape(s: string)
    ensures var r := TrimStart(s);
      |r| <= |s| && r == s[|s| - |r|..] && AllWhitespace(s[..|s| - |r|]) &&
      (r != [] ==> !IsWhitespace(r[0]))
  {
    if s != [] && IsWhitespace(s[0]) {
      TrimStartShape(s[1..]);
      var r := TrimStart(s);
      var n := |s| - |r|;
      assert s[1..][..n - 1] == s[1..n];
      forall k | 0 <= k < n ensures IsWhitespace(s[..n][k]) {
        if k > 0 { assert s[..n][k] == s[1..][..n - 1][k - 1]; }
      }
    }
  }

  /** TrimEnd keeps the prefix of `s` that ends at its last non-whitespace
      character. */
  lemma {:induction false} TrimEndShape(s: string)
    ensures var r := TrimEnd(s);
      |r| <= |s| && r == s[..|r|] && AllWhitespace(s[|r|..]) &&
      (r != [] ==> !IsWhitespace(r[|r| - 1]))
  {
    if s != [] && IsWhitespace(s[|s| - 1]) {
      var p := s[..|s| - 1];
      TrimEndShape(p);
      var r := TrimEnd(s);
      assert r == TrimEnd(p);
      assert p[..|r|] == s[..|r|];
      forall k | 0 <= k < |s| - |r| ensures IsWhitespace(s[|r|..][k]) {
        if k < |s| - 1 - |r| { assert s[|r|..][k] == p[|r|..][k]; }
      }
    }
  }

  /** `s.trim()` */
  function Trim(s: string): string {
    TrimEnd(TrimStart(s))
  }

  /** What `trim` returns: a slice of `s` with only whitespace cut off on
      either side, which begins and ends with a non-whitespace character. */
  lemma TrimIsSlice(s: string)
    ensures exists i, j | 0 <= i <= j <= |s| ::
      Trim(s) == s[i..j] && AllWhitespace(s[..i]) && AllWhitespace(s[j..])
    ensures Trim(s) != [] ==> !IsWhitespace(Trim(s)[0]) && !IsWhitespace(Trim(s)[|Trim(s)| - 1])
  {
    var t := TrimStart(s);
    TrimStartShape(s);
    TrimEndShape(t);
    var i := |s| - |t|;
    var r := TrimEnd(t);
    var j := i + |r|;
    assert t == s[i..];
    assert r == s[i..j];
    assert s[j..] == t[|r|..];
    if r != [] {
      assert r[0] == t[0];
    }
  }

  /** A trimmed string is empty exactly when every character was whitespace. */
  lemma TrimEmptyIff(s: string)
    ensures Trim(s) == [] <==> AllWhitespace(s)
  {
    var t := TrimStart(s);
    TrimStartShape(s);
    TrimEndShape(t);
    var i := |s| - |t|;
    assert t == s[i..];
    if Trim(s) == [] {
      assert t == [];
      assert s[..i] == s;
    } else {
      var r := Trim(s);
      assert r == t[..|r|] && r[0] == t[0] == s[i];
    }
  }
}
