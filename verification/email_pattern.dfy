/** The e-mail test of the contact form: the regular expression `\S+@\S+\.\S+`
    used with `RegExp.prototype.test`, i.e. an unanchored search.

    `Matches` says what the search means (some substring fits the pattern);
    `Test` decides it in one left-to-right pass, and its contract, proved
    through `ScanOfCorrect`, is that the two agree on every string. */
module EmailPattern {

  /** `\s` of ECMAScript regular expressions: the WhiteSpace and LineTerminator
      code points (the Unicode Zs category taken as of Unicode 15). `\S` is its
      complement. */
  predicate IsWhitespace(c: char) {
    // TAB, LF, VT, FF, CR
    || c == '\t' || c == '\n' || c == '\U{000B}' || c == '\U{000C}' || c == '\r'
    // SPACE, NO-BREAK SPACE, OGHAM SPACE MARK
    || c == ' ' || c == '\U{00A0}' || c == '\U{1680}'
    // EN QUAD .. HAIR SPACE
    || ('\U{2000}' <= c <= '\U{200A}')
    // LINE SEPARATOR, PARAGRAPH SEPARATOR, NARROW NO-BREAK SPACE, MEDIUM MATHEMATICAL SPACE
    || c == '\U{2028}' || c == '\U{2029}' || c == '\U{202F}' || c == '\U{205F}'
    // IDEOGRAPHIC SPACE, ZERO WIDTH NO-BREAK SPACE
    || c == '\U{3000}' || c == '\U{FEFF}'
  }

  /** Every position in [lo, hi) holds a character matched by `\S`. */
  ghost predicate NonWhitespaceRange(s: string, lo: int, hi: int)
    requires 0 <= lo && hi <= |s|
  {
    forall k :: lo <= k < hi ==> !IsWhitespace(s[k])
  }

  /** Position `i` holds an `@` preceded by a `\S` character: the end of `\S+@`. */
  ghost predicate AtAfterNonWhitespace(s: string, i: int) {
    1 <= i < |s| && s[i] == '@' && !IsWhitespace(s[i - 1])
  }

  /** A match of `\S+@\S+\.\S+` with its `@` at `i` and its `.` at `j`. The
      leading and trailing `\S+` are taken as short as possible (one character),
      which loses no match. */
  ghost predicate MatchAt(s: string, i: int, j: int) {
    && AtAfterNonWhitespace(s, i)
    && i + 2 <= j && j + 1 < |s|
    && s[j] == '.'
    && NonWhitespaceRange(s, i + 1, j)
    && !IsWhitespace(s[j + 1])
  }

  /** The search succeeds somewhere in `s`. */
  ghost predicate Matches(s: string) {
    exists i, j :: MatchAt(s, i, j)
  }

  // ---------------------------------------------------------------------
  // A one-pass search

  /** What the search remembers about the prefix read so far:
      - lastNonWhitespace: the last character is `\S`;
      - atJustRead: the last character is an `@` after a `\S` character;
      - atWithGap: some `@` after a `\S` character is followed by at least one
        character, and everything after it is `\S`;
      - dotJustRead: the last character is a `.` that closes such a gap;
      - found: a full match lies inside the prefix. */
  datatype Scan = Scan(
    lastNonWhitespace: bool,
    atJustRead: bool,
    atWithGap: bool,
    dotJustRead: bool,
    found: bool)

  const Start := Scan(false, false, false, false, false)

  /** Reads one more character. */
  function Step(st: Scan, c: char): Scan {
    if IsWhitespace(c) then
      Scan(false, false, false, false, st.found)
    else
      Scan(
        true,
        c == '@' && st.lastNonWhitespace,
        st.atWithGap || st.atJustRead,
        c == '.' && st.atWithGap,
        st.found || st.dotJustRead)
  }

  /** The state after reading all of `s`. */
  function ScanOf(s: string): Scan
    decreases |s|
  {
    if s == [] then Start else Step(ScanOf(s[..|s| - 1]), s[|s| - 1])
  }

  /** `RegExp.prototype.test` with the pattern `\S+@\S+\.\S+`. */
  function Test(s: string): (r: bool)
    ensures r <==> Matches(s)
  {
    ScanOfCorrect(s);
    ScanOf(s).found
  }

  // ---------------------------------------------------------------------
  // What each flag of the scan means

  ghost predicate GapFrom(s: string, i: int) {
    AtAfterNonWhitespace(s, i) && i + 1 < |s| && NonWhitespaceRange(s, i + 1, |s|)
  }

  ghost predicate HasGap(s: string) {
    exists i :: GapFrom(s, i)
  }

  ghost function Meaning(s: string): Scan {
    Scan(
      |s| >= 1 && !IsWhitespace(s[|s| - 1]),
      AtAfterNonWhitespace(s, |s| - 1),
      HasGap(s),
      |s| >= 1 && s[|s| - 1] == '.' && HasGap(s[..|s| - 1]),
      Matches(s))
  }

  lemma {:induction false} ScanOfCorrect(s: string)
    ensures ScanOf(s) == Meaning(s)
    decreases |s|
  {
    if s == [] {
      assert !Matches(s) by {
        forall i, j ensures !MatchAt(s, i, j) { }
      }
      assert !HasGap(s) by {
        forall i ensures !GapFrom(s, i) { }
      }
    } else {
      var p, c := s[..|s| - 1], s[|s| - 1];
      assert s == p + [c];
      ScanOfCorrect(p);
      StepCorrect(p, c);
    }
  }

  /** Reading `c` after `p` turns the meaning of `p` into that of `p + [c]`. */
  lemma StepCorrect(p: string, c: char)
    ensures Step(Meaning(p), c) == Meaning(p + [c])
  {
    var s := p + [c];
    assert s[..|p|] == p;
    GapStep(p, c);
    FoundStep(p, c);
  }

  /** The gap flag after `c`: `c` is `\S`, and the gap was already open or
      `c` follows an `@` directly. */
  lemma GapStep(p: string, c: char)
    ensures HasGap(p + [c]) <==>
      !IsWhitespace(c) && (HasGap(p) || AtAfterNonWhitespace(p, |p| - 1))
  {
    var s, n := p + [c], |p|;
    assert forall k | 0 <= k < n :: s[k] == p[k];
    if HasGap(s) {
      var i :| GapFrom(s, i);
      assert s[n] == c;
      if i + 1 < n {
        assert GapFrom(p, i);
      } else {
        assert AtAfterNonWhitespace(p, n - 1);
      }
    }
    if !IsWhitespace(c) {
      if HasGap(p) {
        var i :| GapFrom(p, i);
        assert GapFrom(s, i);
      } else if AtAfterNonWhitespace(p, n - 1) {
        assert GapFrom(s, n - 1);
      }
    }
  }

  /** The match flag after `c`: there was a match already, or `c` is the `\S`
      after a `.` that closed a gap. */
  lemma FoundStep(p: string, c: char)
    ensures Matches(p + [c]) <==>
      Matches(p) || (!IsWhitespace(c) && |p| >= 1 && p[|p| - 1] == '.' && HasGap(p[..|p| - 1]))
  {
    var s, n := p + [c], |p|;
    assert forall k | 0 <= k < n :: s[k] == p[k];
    assert forall k | 0 <= k < n - 1 :: p[..n - 1][k] == p[k];
    if Matches(s) {
      var i, j :| MatchAt(s, i, j);
      if j + 1 < n {
        assert MatchAt(p, i, j);
      } else {
        assert GapFrom(p[..n - 1], i);
      }
    }
    if Matches(p) {
      var i, j :| MatchAt(p, i, j);
      assert MatchAt(s, i, j);
    }
    if !IsWhitespace(c) && n >= 1 && p[n - 1] == '.' && HasGap(p[..n - 1]) {
      var i :| GapFrom(p[..n - 1], i);
      assert MatchAt(s, i, n - 1);
    }
  }

  // ---------------------------------------------------------------------
  // Consequences of the pattern

  /** A string without `@` never matches. */
  lemma NoAtNoMatch(s: string)
    requires forall k :: 0 <= k < |s| ==> s[k] != '@'
    ensures !Matches(s)
  {
  }

  /** A string with no `.` at least two positions after some `@` never matches. */
  lemma NoDotAfterAtNoMatch(s: string)
    requires forall i, j :: 0 <= i < j < |s| && s[i] == '@' && s[j] == '.' ==> j < i + 2
    ensures !Matches(s)
  {
  }

  /** A match needs at least five characters: `x@y.z`. */
  lemma MatchIsLong(s: string)
    requires Matches(s)
    ensures |s| >= 5
  {
  }

  /** The shortest address form matches. */
  lemma ShortestMatch()
    ensures Matches("a@b.c")
  {
    assert MatchAt("a@b.c", 1, 3);
  }

  /** The search is unanchored: text around a match does not prevent it. */
  lemma {:induction false} Unanchored(pre: string, s: string, post: string)
    requires Matches(s)
    ensures Matches(pre + s + post)
  {
    var i, j :| MatchAt(s, i, j);
    var t := pre + s + post;
    var d := |pre|;
    forall k | d + i + 1 <= k < d + j
      ensures !IsWhitespace(t[k])
    {
      assert t[k] == s[k - d];
    }
    assert t[d + i] == s[i] && t[d + i - 1] == s[i - 1];
    assert t[d + j] == s[j] && t[d + j + 1] == s[j + 1];
    assert MatchAt(t, d + i, d + j);
  }

  /** A whitespace character between the `@` and the last `.` breaks the match. */
  lemma WhitespaceBreaksMatch()
    ensures !Matches("a@b c")
    ensures !Matches("a @b.c")
  {
  }
}
