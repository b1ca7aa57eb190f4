/**
 `re.split(r'\n\s*\n', content)`: the paragraph cut of `_split_large_chunk`.

 A separator starts at a newline and, because `\s*` is greedy and then backs
 off, ends just after the last newline of the whitespace run that follows.
 The split does not look at formulas: a `$$...$$` block with a blank line
 inside is cut like any other text.
 */
module Paragraphs {
  import opened Text

  predicate IsNewline(c: char) { c == '\n' }

  /** End of the separator match starting at `i`, if the pattern matches there. */
  function SeparatorEnd(s: string, i: nat): (r: Option<nat>)
    requires i < |s|
    ensures r.Some? ==> i + 2 <= r.value <= |s|
  {
    if s[i] != '\n' then None
    else match LastWhere(s, i + 1, SpaceRunEnd(s, i + 1), IsNewline)
      case None => None
      case Some(j) => Some(j + 1)
  }

  /** A text matched by `\n\s*\n`: newline, whitespace, newline. */
  predicate IsSeparator(t: string) {
    && |t| >= 2
    && t[0] == '\n' && t[|t| - 1] == '\n'
    && forall k :: 0 <= k < |t| ==> IsSpace(t[k])
  }

  /** The text holds two newlines with only whitespace between them: a blank line. */
  predicate HasBlankLine(t: string) {
    exists a, b :: 0 <= a < b < |t| && t[a] == '\n' && t[b] == '\n'
                   && forall k :: a < k < b ==> IsSpace(t[k])
  }

  /** Pieces and separators interleaved: `p0 + s0 + p1 + s1 + ... + pn`. */
  function Interleave(pieces: seq<string>, seps: seq<string>): string
    requires |pieces| == |seps| + 1
    decreases |seps|
  {
    if |seps| == 0 then pieces[0]
    else pieces[0] + seps[0] + Interleave(pieces[1..], seps[1..])
  }

  /** Where the pattern fails at `a`, no blank line starts at `a`. */
  lemma NoSeparatorNoBlank(s: string, a: nat, b: nat)
    requires a < b < |s| && s[a] == '\n' && s[b] == '\n'
    requires forall k :: a < k < b ==> IsSpace(s[k])
    ensures SeparatorEnd(s, a).Some?
  {
    var r := SpaceRunEnd(s, a + 1);
    assert b < r;
  }

  /**
   The split from `start`, scanning at `i`: the pieces and the separators
   between them. Every position in `[start, i)` has already been tried.
   */
  function SplitFrom(s: string, start: nat, i: nat): (r: (seq<string>, seq<string>))
    requires start <= i <= |s|
    requires forall j :: start <= j < i ==> SeparatorEnd(s, j).None?
    ensures |r.0| == |r.1| + 1
    decreases |s| - i
  {
    if i == |s| then ([s[start..]], [])
    else match SeparatorEnd(s, i)
      case Some(e) =>
        var rest := SplitFrom(s, e, e);
        ([s[start..i]] + rest.0, [s[i..e]] + rest.1)
      case None => SplitFrom(s, start, i + 1)
  }

  /** A separator match at `i` closes the current piece and restarts the split after it. */
  lemma SplitFromCut(s: string, start: nat, i: nat)
    requires start <= i < |s|
    requires forall j :: start <= j < i ==> SeparatorEnd(s, j).None?
    requires SeparatorEnd(s, i).Some?
    ensures var e := SeparatorEnd(s, i).value;
      SplitFrom(s, start, i) == ([s[start..i]] + SplitFrom(s, e, e).0, [s[i..e]] + SplitFrom(s, e, e).1)
  {
  }

  /** No match at `i`: the scan moves on. */
  lemma SplitFromSkip(s: string, start: nat, i: nat)
    requires start <= i < |s|
    requires forall j :: start <= j < i ==> SeparatorEnd(s, j).None?
    requires SeparatorEnd(s, i).None?
    ensures SplitFrom(s, start, i) == SplitFrom(s, start, i + 1)
  {
  }

  lemma InterleaveCons(p: string, sep: string, pieces: seq<string>, seps: seq<string>)
    requires |pieces| == |seps| + 1
    ensures Interleave([p] + pieces, [sep] + seps) == p + sep + Interleave(pieces, seps)
  {
    assert ([p] + pieces)[1..] == pieces && ([sep] + seps)[1..] == seps;
  }

  lemma SliceThree(s: string, a: nat, b: nat, c: nat)
    requires a <= b <= c <= |s|
    ensures s[a..b] + s[b..c] + s[c..] == s[a..]
  {
  }

  lemma SeparatorsCons(sep: string, rest: seq<string>)
    requires IsSeparator(sep) && forall k :: 0 <= k < |rest| ==> IsSeparator(rest[k])
    ensures forall k :: 0 <= k < |[sep] + rest| ==> IsSeparator(([sep] + rest)[k])
  {
  }

  lemma PiecesCons(piece: string, rest: seq<string>)
    requires !HasBlankLine(piece) && forall k :: 0 <= k < |rest| ==> !HasBlankLine(rest[k])
    ensures forall k :: 0 <= k < |[piece] + rest| ==> !HasBlankLine(([piece] + rest)[k])
  {
    forall k | 0 <= k < |[piece] + rest|
      ensures !HasBlankLine(([piece] + rest)[k])
    {
      if k > 0 {
        assert ([piece] + rest)[k] == rest[k - 1];
      }
    }
  }

  /** Putting the separators back between the pieces gives the text from `start` again. */
  lemma {:induction false} SplitFromRebuilds(s: string, start: nat, i: nat)
    requires start <= i <= |s|
    requires forall j :: start <= j < i ==> SeparatorEnd(s, j).None?
    ensures Interleave(SplitFrom(s, start, i).0, SplitFrom(s, start, i).1) == s[start..]
    decreases |s| - i
  {
    if i < |s| {
      if SeparatorEnd(s, i).Some? {
        var e := SeparatorEnd(s, i).value;
        var rest := SplitFrom(s, e, e);
        SplitFromCut(s, start, i);
        SplitFromRebuilds(s, e, e);
        InterleaveCons(s[start..i], s[i..e], rest.0, rest.1);
        SliceThree(s, start, i, e);
      } else {
        SplitFromSkip(s, start, i);
        SplitFromRebuilds(s, start, i + 1);
      }
    }
  }

  /** Every separator is a `\n\s*\n` match. */
  lemma {:induction false} SplitFromSeparators(s: string, start: nat, i: nat)
    requires start <= i <= |s|
    requires forall j :: start <= j < i ==> SeparatorEnd(s, j).None?
    ensures forall k :: 0 <= k < |SplitFrom(s, start, i).1| ==> IsSeparator(SplitFrom(s, start, i).1[k])
    decreases |s| - i
  {
    if i < |s| {
      if SeparatorEnd(s, i).Some? {
        var e := SeparatorEnd(s, i).value;
        var rest := SplitFrom(s, e, e).1;
        SplitFromCut(s, start, i);
        SplitFromSeparators(s, e, e);
        SeparatorShape(s, i);
        SeparatorsCons(s[i..e], rest);
      } else {
        SplitFromSkip(s, start, i);
        SplitFromSeparators(s, start, i + 1);
      }
    }
  }

  /** No piece holds a blank line: each one lies between two separator matches. */
  lemma {:induction false} SplitFromPieces(s: string, start: nat, i: nat)
    requires start <= i <= |s|
    requires forall j :: start <= j < i ==> SeparatorEnd(s, j).None?
    ensures forall k :: 0 <= k < |SplitFrom(s, start, i).0| ==> !HasBlankLine(SplitFrom(s, start, i).0[k])
    decreases |s| - i
  {
    if i == |s| {
      PieceHasNoBlank(s, start, i);
      assert s[start..i] == s[start..];
    } else if SeparatorEnd(s, i).Some? {
      var e := SeparatorEnd(s, i).value;
      var rest := SplitFrom(s, e, e).0;
      SplitFromCut(s, start, i);
      SplitFromPieces(s, e, e);
      PieceHasNoBlank(s, start, i);
      PiecesCons(s[start..i], rest);
    } else {
      SplitFromSkip(s, start, i);
      SplitFromPieces(s, start, i + 1);
    }
  }

  lemma PieceHasNoBlank(s: string, start: nat, i: nat)
    requires start <= i <= |s|
    requires forall j :: start <= j < i ==> SeparatorEnd(s, j).None?
    ensures !HasBlankLine(s[start..i])
  {
    var t := s[start..i];
    if HasBlankLine(t) {
      var a, b :| 0 <= a < b < |t| && t[a] == '\n' && t[b] == '\n'
                  && forall k :: a < k < b ==> IsSpace(t[k]);
      assert forall k :: start + a < k < start + b ==> IsSpace(s[k]) by {
        forall k | start + a < k < start + b
          ensures IsSpace(s[k])
        {
          assert s[k] == t[k - start];
        }
      }
      NoSeparatorNoBlank(s, start + a, start + b);
    }
  }

  lemma SeparatorShape(s: string, i: nat)
    requires i < |s| && SeparatorEnd(s, i).Some?
    ensures IsSeparator(s[i..SeparatorEnd(s, i).value])
  {
    var e := SeparatorEnd(s, i).value;
    var t := s[i..e];
    assert t[0] == s[i];
    assert t[|t| - 1] == s[e - 1];
    forall k | 0 <= k < |t|
      ensures IsSpace(t[k])
    {
      assert t[k] == s[i + k];
    }
  }

  /**
   `re.split(r'\n\s*\n', s)`: the pieces between the separator matches. There
   is always at least one piece, and pieces may be empty.
   */
  function Split(s: string): (pieces: seq<string>)
    ensures |pieces| >= 1
    ensures forall k :: 0 <= k < |pieces| ==> !HasBlankLine(pieces[k])
  {
    var r := SplitFrom(s, 0, 0);
    SplitFromPieces(s, 0, 0);
    assert forall k :: 0 <= k < |r.0| ==> !HasBlankLine(r.0[k]);
    r.0
  }

  /** The pieces and separators of `Split` rebuild the text, and the separators are all matches. */
  lemma SplitRebuilds(s: string)
    ensures var r := SplitFrom(s, 0, 0);
      && r.0 == Split(s)
      && Interleave(r.0, r.1) == s
      && forall k :: 0 <= k < |r.1| ==> IsSeparator(r.1[k])
  {
    SplitFromRebuilds(s, 0, 0);
    SplitFromSeparators(s, 0, 0);
  }

  /** A text that does not start with a newline keeps its first character in the first piece. */
  lemma FirstPieceKeepsStart(s: string)
    requires |s| > 0 && s[0] != '\n'
    ensures |Split(s)[0]| > 0 && Split(s)[0][0] == s[0]
  {
    var r := SplitFrom(s, 0, 0);
    FirstPiece(s, 0, 0);
  }

  lemma {:induction false} FirstPiece(s: string, start: nat, i: nat)
    requires start <= i <= |s|
    requires forall j :: start <= j < i ==> SeparatorEnd(s, j).None?
    requires start < |s| && s[start] != '\n'
    ensures var p := SplitFrom(s, start, i).0[0];
      |p| > 0 && p[0] == s[start]
    decreases |s| - i
  {
    if i < |s| {
      match SeparatorEnd(s, i)
      case Some(e) =>
        assert i != start;
      case None =>
        FirstPiece(s, start, i + 1);
    }
  }
}
