/**
 The two text classifiers of the PDF converter: `is_heading`, which decides
 that an extracted line becomes a `###` heading, and `format_formula`, which
 wraps a line in `$...$` when it looks like a formula.

 Character classes are ASCII: `str.isupper()` looks only at `A-Z` and `a-z`,
 `\w` is `[A-Za-z0-9_]` and `\d` is `[0-9]`.
 */
module PdfHeading {
  import opened Text

  predicate IsUpperLetter(c: char) { 'A' <= c <= 'Z' }
  predicate IsLowerLetter(c: char) { 'a' <= c <= 'z' }
  predicate IsDigit(c: char) { '0' <= c <= '9' }

  /** `\w`: a letter, a digit or an underscore. */
  predicate IsWord(c: char) { IsUpperLetter(c) || IsLowerLetter(c) || IsDigit(c) || c == '_' }

  /** `str.isupper()`: at least one cased character, and no lower-case one. */
  predicate IsUpperText(t: string) {
    && (exists i :: 0 <= i < |t| && IsUpperLetter(t[i]))
    && (forall i :: 0 <= i < |t| ==> !IsLowerLetter(t[i]))
  }

  /**
   `is_heading(text, prev_text)`: the stripped line is a heading when it is
   not empty, at most 100 characters long, and either all upper case or
   shorter than 50 characters after a blank previous line.
   */
  function IsHeading(text: string, prev: string): (r: bool)
    // nothing over 100 characters, and nothing blank, is a heading
    ensures r ==> 1 <= |Strip(text)| <= 100
    ensures (forall i :: 0 <= i < |text| ==> IsSpace(text[i])) ==> !r
    // upper case decides on its own
    ensures 1 <= |Strip(text)| <= 100 && IsUpperText(Strip(text)) ==> r
    // a short line after a blank one is a heading
    ensures 1 <= |Strip(text)| < 50 && (forall i :: 0 <= i < |prev| ==> IsSpace(prev[i])) ==> r
    // otherwise it is not
    ensures !IsUpperText(Strip(text)) && Strip(prev) != [] ==> !r
    ensures 50 <= |Strip(text)| && !IsUpperText(Strip(text)) ==> !r
    // together: the whole decision
    ensures r <==> 1 <= |Strip(text)| <= 100 && (IsUpperText(Strip(text)) || (Strip(prev) == [] && |Strip(text)| < 50))
  {
    StripEmptyIff(text);
    StripEmptyIff(prev);
    var t := Strip(text);
    if t == [] || |t| > 100 then false
    else if IsUpperText(t) || (Strip(prev) == [] && |t| < 50) then true
    else false
  }

  /**
   After a line with any visible character, only upper-case lines of at most
   100 characters are headings: the short-line rule needs a blank predecessor.
   */
  lemma HeadingAfterText(text: string, prev: string)
    requires exists i :: 0 <= i < |prev| && !IsSpace(prev[i])
    ensures IsHeading(text, prev) <==> 1 <= |Strip(text)| <= 100 && IsUpperText(Strip(text))
  {
    StripEmptyIff(prev);
  }

  // ---------------------------------------------------------------------------
  // format_formula
  // ---------------------------------------------------------------------------

  /**
   `\b\w+\^\d+` matches ending at the caret `k`. A word character before the
   caret suffices: the word run it ends starts at a word boundary.
   */
  predicate PowerAt(t: string, k: nat) {
    1 <= k && k + 1 < |t| && IsWord(t[k - 1]) && t[k] == '^' && IsDigit(t[k + 1])
  }

  /**
   `\bsqrt\(.+?\)` matches at `i`: a word boundary, `sqrt(`, at least one
   character and then `)`, all on the same line (`.` does not match a newline).
   */
  predicate SqrtAt(t: string, i: nat) {
    && StartsAt(t, i, "sqrt(")
    && (i == 0 || !IsWord(t[i - 1]))
    && exists j :: i + 6 <= j < LineEnd(t, i + 5) && t[j] == ')'
  }

  /** `[\w\d]+/[\/\w\d]+` matches around the slash at `k`. */
  predicate FractionAt(t: string, k: nat) {
    1 <= k && k + 1 < |t| && IsWord(t[k - 1]) && t[k] == '/' && (IsWord(t[k + 1]) || t[k + 1] == '/')
  }

  predicate PatternAt(t: string, k: nat) {
    PowerAt(t, k) || SqrtAt(t, k) || FractionAt(t, k)
  }

  /** `re.search(formula_pattern, text)` finds a match. */
  predicate HasFormulaPattern(t: string) {
    exists k :: 0 <= k < |t| && PatternAt(t, k)
  }

  /** The search itself: try each position in turn and stop at the first that matches. */
  method SearchFormula(t: string) returns (found: bool, at: nat)
    ensures found <==> HasFormulaPattern(t)
    ensures found ==> at < |t| && PatternAt(t, at)
    ensures forall k :: 0 <= k < (if found then at else |t|) ==> !PatternAt(t, k)
  {
    var k := 0;
    while k < |t|
      invariant k <= |t|
      invariant forall j :: 0 <= j < k ==> !PatternAt(t, j)
    {
      if PatternAt(t, k) {
        return true, k;
      }
      k := k + 1;
    }
    return false, 0;
  }

  /**
   `format_formula`: the line, wrapped in dollar signs exactly when the
   pattern is found in it.
   */
  function FormatFormula(t: string): (r: string)
    ensures HasFormulaPattern(t) ==> r == "$" + t + "$"
    ensures !HasFormulaPattern(t) ==> r == t
  {
    if HasFormulaPattern(t) then "$" + t + "$" else t
  }

  /** The wrapping can be read back: the result is the line, or the line between two dollar signs. */
  lemma FormatFormulaInverse(t: string)
    ensures var r := FormatFormula(t);
      && (|r| == |t| ==> r == t)
      && (|r| != |t| ==> |r| == |t| + 2 && r[0] == '$' && r[|r| - 1] == '$' && r[1..|r| - 1] == t)
      && (|r| != |t| <==> HasFormulaPattern(t))
  {
    var r := FormatFormula(t);
    if HasFormulaPattern(t) {
      assert r[1..|r| - 1] == t;
    }
  }

  // ---------------------------------------------------------------------------
  // The unit-test vectors
  // ---------------------------------------------------------------------------

  /** A text whose two ends are visible characters is its own strip. */
  lemma StripVisible(t: string)
    requires |t| > 0 && !IsSpace(t[0]) && !IsSpace(t[|t| - 1])
    ensures Strip(t) == t
  {
  }

  lemma HeadingVectorUpper()
    ensures IsHeading("INTRODUCTION", "")
  {
    var upper := "INTRODUCTION";
    StripVisible(upper);
    assert IsUpperLetter(upper[0]);
  }

  lemma HeadingVectorShort()
    ensures IsHeading("Short Title", "")
  {
    StripVisible("Short Title");
  }

  /** The long test sentence (93 characters), written in two halves. */
  lemma HeadingVectorLong()
    ensures !IsHeading("This is a very long sentence that should not" + " be a heading because it exceeds the length limit", "")
  {
    var head, tail := "This is a very long sentence that should not", " be a heading because it exceeds the length limit";
    var long := head + tail;
    assert long[0] == head[0] == 'T' && long[|long| - 1] == tail[|tail| - 1] == 't';
    StripVisible(long);
    assert long[1] == head[1];
    assert IsLowerLetter(long[1]);
  }

  lemma HeadingVectorNormal()
    ensures !IsHeading("Normal text", "Previous text")
  {
    var normal := "Normal text";
    StripVisible(normal);
    assert IsLowerLetter(normal[1]);
    var prev := "Previous text";
    StripVisible(prev);
  }

  lemma FormulaVectorPower()
    ensures FormatFormula("x^2 + y^2") == "$x^2 + y^2$"
  {
    assert PatternAt("x^2 + y^2", 1);
  }

  lemma FormulaVectorSqrt()
    ensures FormatFormula("sqrt(x)") == "$sqrt(x)$"
  {
    var sq := "sqrt(x)";
    assert sq[0..5] == "sqrt(";
    assert LineEnd(sq, 5) == 7;
    assert SqrtAt(sq, 0) by {
      assert sq[6] == ')';
    }
    assert PatternAt(sq, 0);
  }

  lemma FormulaVectorFraction()
    ensures FormatFormula("a/b") == "$a/b$"
  {
    var frac := "a/b";
    assert IsWord(frac[0]) && IsWord(frac[2]);
    assert FractionAt(frac, 1) && PatternAt(frac, 1);
  }

  /** No match can sit at a character that none of the three alternatives needs there. */
  lemma NoPatternAt(t: string, k: nat)
    requires k < |t| && t[k] != 's' && t[k] != '^' && t[k] != '/'
    ensures !PatternAt(t, k)
  {
  }

  lemma FormulaVectorPlain()
    ensures FormatFormula("Plain text") == "Plain text"
  {
    var plain := "Plain text";
    forall k | 0 <= k < |plain|
      ensures !PatternAt(plain, k)
    {
      NoPatternAt(plain, k);
    }
  }
}
