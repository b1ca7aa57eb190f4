/**
 Formula detection in the markdown chunker: `is_formula` and the list of
 formula matches the overlap selector takes its last element from.

 All patterns are compiled with `re.DOTALL`, so `.` also matches newlines, and
 their lazy `.*?` parts stop at the first occurrence of what follows them.
 */
module Formula {
  import opened Text

  /** A match object of the formula pattern: `[start, end)` of the text. */
  datatype Span = Span(start: int, end: int)

  function Begin(name: string): string { "\\begin{" + name + "}" }
  function End(name: string): string { "\\end{" + name + "}" }

  // ---------------------------------------------------------------------------
  // is_formula: four searches
  // ---------------------------------------------------------------------------

  /** `re.search(r'\$\$.*?\$\$', t, re.DOTALL)` finds something. */
  predicate HasDisplayMath(t: string) {
    exists i, k :: 0 <= i && i + 2 <= k <= |t| && StartsAt(t, i, "$$") && StartsAt(t, k, "$$")
  }

  /** `re.search(r'\$.*?\$', t, re.DOTALL)` finds something. */
  predicate HasInlineMath(t: string) {
    exists i, k :: 0 <= i < k < |t| && t[i] == '$' && t[k] == '$'
  }

  /** `re.search(r'\\begin\{name\}.*?\\end\{name\}', t, re.DOTALL)` finds something. */
  predicate HasEnvironment(t: string, name: string) {
    exists i, k :: 0 <= i && i + |Begin(name)| <= k <= |t|
                   && StartsAt(t, i, Begin(name)) && StartsAt(t, k, End(name))
  }

  /** `is_formula`: any of its four patterns is found somewhere in the text. */
  predicate IsFormula(t: string) {
    || HasDisplayMath(t)
    || HasInlineMath(t)
    || HasEnvironment(t, "equation")
    || HasEnvironment(t, "align")
  }

  /**
   The four searches reduce to three facts: at least two dollar signs, or an
   `equation` or an `align` environment that is closed after it opens.
   */
  lemma IsFormulaIff(t: string)
    ensures IsFormula(t) <==>
      CountChar(t, '$') >= 2 || HasEnvironment(t, "equation") || HasEnvironment(t, "align")
  {
    CountCharAtLeastTwo(t, '$');
    if HasDisplayMath(t) {
      DisplayIsInline(t);
    }
  }

  /** A `$$...$$` block also matches the inline pattern, so the first search is never decisive. */
  lemma DisplayIsInline(t: string)
    requires HasDisplayMath(t)
    ensures HasInlineMath(t)
  {
    var i, k :| 0 <= i && i + 2 <= k <= |t| && StartsAt(t, i, "$$") && StartsAt(t, k, "$$");
    assert t[i] == '$' && t[i + 1] == '$' by {
      assert t[i..i + 2] == "$$";
    }
  }

  // ---------------------------------------------------------------------------
  // The formula matches: finditer over the alternation at line 211
  // ---------------------------------------------------------------------------

  /**
   The match of `\$\$.*?\$\$|\$.*?\$|\\begin\{.*?\}.*?\\end\{.*?\}` at `i`.
   The alternatives are tried in order. In the third, each lazy part stops at
   the first `}`, then the first `\end{`, then the first `}` after it: if the
   earliest choice cannot be completed, no later one can either.
   */
  function MatchAt(t: string, i: nat): (r: Option<Span>)
    requires i < |t|
    ensures r.Some? ==> r.value.start == i < r.value.end <= |t|
  {
    var closeDisplay := Find(t, "$$", i + 2);
    var closeInline := Find(t, "$", i + 1);
    if StartsAt(t, i, "$$") && closeDisplay.Some? then
      Some(Span(i, closeDisplay.value + 2))
    else if t[i] == '$' && closeInline.Some? then
      Some(Span(i, closeInline.value + 1))
    else if StartsAt(t, i, "\\begin{") then
      match Find(t, "}", i + 7)
      case None => None
      case Some(a) =>
        match Find(t, "\\end{", a + 1)
        case None => None
        case Some(b) =>
          match Find(t, "}", b + 5)
          case None => None
          case Some(c) => Some(Span(i, c + 1))
    else None
  }

  /** `finditer` from `i`: matches in order, each search resuming where the last match ended. */
  function Scan(t: string, i: nat): (spans: seq<Span>)
    requires i <= |t|
    ensures forall k :: 0 <= k < |spans| ==> i <= spans[k].start < spans[k].end <= |t|
    ensures forall k :: 0 <= k < |spans| - 1 ==> spans[k].end <= spans[k + 1].start
    decreases |t| - i
  {
    if i == |t| then []
    else match MatchAt(t, i)
      case Some(sp) => [sp] + Scan(t, sp.end)
      case None => Scan(t, i + 1)
  }

  /** Every reported span is the pattern's match at its own start. */
  lemma {:induction false} ScanSound(t: string, i: nat)
    requires i <= |t|
    ensures forall k :: 0 <= k < |Scan(t, i)| ==>
      Scan(t, i)[k].start < |t| && MatchAt(t, Scan(t, i)[k].start) == Some(Scan(t, i)[k])
    decreases |t| - i
  {
    if i < |t| {
      match MatchAt(t, i)
      case Some(sp) =>
        ScanSound(t, sp.end);
        assert Scan(t, i) == [sp] + Scan(t, sp.end);
      case None =>
        ScanSound(t, i + 1);
    }
  }

  /** An empty scan from `j` means the pattern matches at no position from `j` on. */
  lemma {:induction false} ScanEmpty(t: string, j: nat, i: nat)
    requires j <= i < |t|
    requires Scan(t, j) == []
    ensures MatchAt(t, i).None?
    decreases i - j
  {
    if j < i {
      assert MatchAt(t, j).None?;
      ScanEmpty(t, j + 1, i);
    }
  }

  /** The last formula match, as `formula_matches[-1]` when the list is not empty. */
  function LastMatch(t: string): (r: Option<Span>)
    ensures r.Some? ==> 0 <= r.value.start < r.value.end <= |t|
    ensures r.Some? ==> exists k :: 0 <= k < |Scan(t, 0)| && Scan(t, 0)[k] == r.value
    ensures r.Some? ==> forall k :: 0 <= k < |Scan(t, 0)| ==> Scan(t, 0)[k].end <= r.value.end
    ensures r.None? <==> Scan(t, 0) == []
  {
    var spans := Scan(t, 0);
    if |spans| == 0 then None
    else
      OrderedEnds(spans);
      Some(spans[|spans| - 1])
  }

  lemma {:induction false} OrderedEnds(spans: seq<Span>)
    requires forall k :: 0 <= k < |spans| ==> spans[k].start < spans[k].end
    requires forall k :: 0 <= k < |spans| - 1 ==> spans[k].end <= spans[k + 1].start
    ensures forall k :: 0 <= k < |spans| ==> spans[k].end <= spans[|spans| - 1].end
    decreases |spans|
  {
    if |spans| > 1 {
      OrderedEnds(spans[..|spans| - 1]);
    }
  }

  /**
   Whenever `is_formula` holds the match list is not empty, so the source's
   `if formula_matches` test never fails after a true `is_formula`.
   */
  lemma FormulaHasMatch(t: string)
    requires IsFormula(t)
    ensures LastMatch(t).Some?
  {
    var i := FormulaStart(t);
    if Scan(t, 0) == [] {
      ScanEmpty(t, 0, i);
    }
  }

  /** A position where the pattern of line 211 matches, whenever `is_formula` holds. */
  lemma FormulaStart(t: string) returns (i: nat)
    requires IsFormula(t)
    ensures i < |t| && MatchAt(t, i).Some?
  {
    if HasInlineMath(t) || HasDisplayMath(t) {
      if HasDisplayMath(t) {
        DisplayIsInline(t);
      }
      var a, k :| 0 <= a < k < |t| && t[a] == '$' && t[k] == '$';
      assert StartsAt(t, k, "$");
      i := a;
    } else if HasEnvironment(t, "equation") {
      i := EnvironmentMatches(t, "equation");
    } else {
      i := EnvironmentMatches(t, "align");
    }
  }

  /** A word found at `i` also shows each of its characters and each of its prefixes there. */
  lemma StartsAtParts(t: string, i: int, w: string)
    requires StartsAt(t, i, w)
    ensures forall j :: 0 <= j < |w| ==> t[i + j] == w[j]
    ensures forall n :: 0 <= n <= |w| ==> StartsAt(t, i, w[..n])
  {
    assert t[i..i + |w|] == w;
    forall n | 0 <= n <= |w|
      ensures StartsAt(t, i, w[..n])
    {
      assert t[i..i + n] == t[i..i + |w|][..n];
    }
  }

  /** An environment opened and later closed yields a match of the third alternative. */
  lemma EnvironmentMatches(t: string, name: string) returns (i: nat)
    requires HasEnvironment(t, name)
    ensures i < |t| && MatchAt(t, i).Some?
  {
    var a, k :| 0 <= a && a + |Begin(name)| <= k <= |t| && StartsAt(t, a, Begin(name)) && StartsAt(t, k, End(name));
    i := a;
    EnvironmentOpens(t, a, name);
    EnvironmentCloses(t, k, name);
    ChainMatches(t, a, a + |Begin(name)| - 1, k, k + |End(name)| - 1);
  }

  /**
   The third alternative completes at `i` once a `}` follows `\begin{`, an
   `\end{` follows that and a `}` follows the `\end{`.
   */
  lemma ChainMatches(t: string, i: nat, brace: nat, end: nat, last: nat)
    requires i < |t| && t[i] == '\\' && !StartsAt(t, i, "$$") && StartsAt(t, i, "\\begin{")
    requires i + 7 <= brace < end && end + 5 <= last
    requires StartsAt(t, brace, "}") && StartsAt(t, end, "\\end{") && StartsAt(t, last, "}")
    ensures MatchAt(t, i).Some?
  {
    FindReaches(t, "}", i + 7, brace);
    var b := Find(t, "}", i + 7).value;
    FindReaches(t, "\\end{", b + 1, end);
    var e := Find(t, "\\end{", b + 1).value;
    FindReaches(t, "}", e + 5, last);
  }

  /** An opening `\begin{name}` starts with a backslash, and its brace closes its last character. */
  lemma EnvironmentOpens(t: string, a: nat, name: string)
    requires StartsAt(t, a, Begin(name))
    ensures a < |t| && t[a] == '\\' && !StartsAt(t, a, "$$")
    ensures StartsAt(t, a, "\\begin{") && StartsAt(t, a + |Begin(name)| - 1, "}")
  {
    var open := Begin(name);
    StartsAtParts(t, a, open);
    assert open[..7] == "\\begin{" && open[0] == '\\';
    assert !StartsAt(t, a, "$$") by {
      assert t[a..a + 2][0] == t[a];
    }
    var braceAt := a + |open| - 1;
    assert t[braceAt] == open[|open| - 1];
    assert t[braceAt..braceAt + 1] == [t[braceAt]];
  }

  /** A closing `\end{name}` starts with `\end{` and ends with a brace. */
  lemma EnvironmentCloses(t: string, k: nat, name: string)
    requires StartsAt(t, k, End(name))
    ensures StartsAt(t, k, "\\end{") && StartsAt(t, k + |End(name)| - 1, "}")
  {
    var close := End(name);
    StartsAtParts(t, k, close);
    assert close[..5] == "\\end{";
    var lastBrace := k + |close| - 1;
    assert t[lastBrace] == close[|close| - 1];
    assert t[lastBrace..lastBrace + 1] == [t[lastBrace]];
  }
}
