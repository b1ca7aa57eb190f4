/**
 The heading index of the markdown chunker (`extract_heading_structure`).

 The source finds headings with the multi-line regular expression
 `^(#{1,6})\s+(.+)$`. `MatchAt` is that expression's match at one position,
 with Python's backtracking written out; `Scan` is `finditer`, which resumes
 after the end of each match. Because `\s` also matches newlines, a heading
 line whose marks are followed only by whitespace takes its title from the
 next non-blank line, and that line is not a heading of its own.
 */
module Headings {
  import opened Text

  /** One entry of the heading list: level 1-6 for a heading, 0 for the `END` marker. */
  datatype Marker = Marker(level: int, title: string, position: int)

  /**
   A match object of the heading pattern: where it starts, the number of
   marks (group 1), where group 2 starts, and where the match ends.
   */
  datatype HeadingMatch = HeadingMatch(start: int, level: int, titleStart: int, end: int)

  /** Where `^` matches in multi-line mode. */
  predicate IsLineStart(s: string, i: int)
    requires 0 <= i <= |s|
  {
    i == 0 || s[i - 1] == '\n'
  }

  /** Number of consecutive `#` characters from `i`. */
  function HashRun(s: string, i: nat): (n: nat)
    requires i <= |s|
    ensures i + n <= |s|
    ensures forall k :: i <= k < i + n ==> s[k] == '#'
    ensures i + n == |s| || s[i + n] != '#'
    decreases |s| - i
  {
    if i < |s| && s[i] == '#' then 1 + HashRun(s, i + 1) else 0
  }

  predicate NotNewline(c: char) { c != '\n' }

  /**
   The match of `(#{1,6})\s+(.+)$` starting at `p`, if any.

   `#{1,6}` can only succeed with the whole run of marks, so a run of seven or
   more marks never matches. `\s+` first takes the whole whitespace run; if
   text follows on the same position, `(.+)` takes the rest of that line.
   If the whitespace runs to the end of the document, `\s+` gives characters
   back until `(.+)` can start on a character that is not a newline.
   */
  function MatchAt(s: string, p: nat): (r: Option<HeadingMatch>)
    requires p <= |s|
    ensures r.Some? ==> WellFormed(s, r.value) && r.value.start == p
  {
    var h := HashRun(s, p);
    var q := p + h;
    if h == 0 || h > 6 || q == |s| || !IsSpace(s[q]) then None
    else
      var r := SpaceRunEnd(s, q);
      if r < |s| then Some(HeadingMatch(p, h, r, LineEnd(s, r)))
      else match LastWhere(s, q + 1, r, NotNewline)
        case None => None
        case Some(j) => Some(HeadingMatch(p, h, j, LineEnd(s, j)))
  }

  /**
   What a match looks like: the marks, whitespace (possibly spanning lines) up
   to the title, a title on one line running to a newline or the end. When
   marks followed by whitespace do not match, the whitespace runs to the end
   of the document and holds nothing but newlines after its first character.
   */
  lemma MatchAtShape(s: string, p: nat)
    requires p <= |s|
    ensures MatchAt(s, p).Some? ==>
      var m := MatchAt(s, p).value;
      && m.level == HashRun(s, p)
      && (forall k :: p <= k < p + m.level ==> s[k] == '#')
      && (forall k :: p + m.level <= k < m.titleStart ==> IsSpace(s[k]))
      && (forall k :: m.titleStart <= k < m.end ==> s[k] != '\n')
      && (m.end == |s| || s[m.end] == '\n')
    ensures MatchAt(s, p).None? && p < |s| && s[p] == '#' && HashRun(s, p) <= 6 && p + HashRun(s, p) < |s| ==>
      var q := p + HashRun(s, p);
      !IsSpace(s[q]) || (SpaceRunEnd(s, q) == |s| && forall k :: q < k < |s| ==> s[k] == '\n')
  {
  }

  /** The span facts of a match that the scanner relies on. */
  predicate WellFormed(s: string, m: HeadingMatch) {
    0 <= m.start && 1 <= m.level <= 6 && m.start + m.level < m.titleStart < m.end <= |s|
  }

  /** The marker a match yields: level, stripped group 2, and the match start. */
  function MarkerOf(s: string, m: HeadingMatch): Marker
    requires WellFormed(s, m)
  {
    Marker(m.level, Strip(s[m.titleStart..m.end]), m.start)
  }

  /** A position where the pattern matches, given that `^` holds there. */
  predicate MatchesAt(s: string, p: int)
  {
    0 <= p < |s| && IsLineStart(s, p) && MatchAt(s, p).Some?
  }

  /** `finditer` from position `i`: try each position, resume after each match. */
  function Scan(s: string, i: nat): (ms: seq<HeadingMatch>)
    requires i <= |s|
    ensures forall k :: 0 <= k < |ms| ==> WellFormed(s, ms[k]) && i <= ms[k].start
    ensures forall k :: 0 <= k < |ms| - 1 ==> ms[k].end <= ms[k + 1].start
    decreases |s| - i
  {
    if i == |s| then []
    else if IsLineStart(s, i) && MatchAt(s, i).Some? then
      var m := MatchAt(s, i).value;
      [m] + Scan(s, m.end)
    else Scan(s, i + 1)
  }

  /** Every reported match is the pattern's match at a line start. */
  lemma {:induction false} ScanSound(s: string, i: nat)
    requires i <= |s|
    ensures forall k :: 0 <= k < |Scan(s, i)| ==>
      MatchesAt(s, Scan(s, i)[k].start) && MatchAt(s, Scan(s, i)[k].start) == Some(Scan(s, i)[k])
    decreases |s| - i
  {
    if i < |s| {
      if IsLineStart(s, i) && MatchAt(s, i).Some? {
        var m := MatchAt(s, i).value;
        ScanSound(s, m.end);
        assert Scan(s, i) == [m] + Scan(s, m.end);
      } else {
        ScanSound(s, i + 1);
      }
    }
  }

  /**
   The heading list: every heading `finditer` reports, in order, then the
   level-0 `END` marker at the length of the document. No marker is added for
   text before the first heading.
   */
  function ExtractHeadingStructure(s: string): (ms: seq<Marker>)
    ensures |ms| >= 1
    ensures ms[|ms| - 1] == Marker(0, "END", |s|)
    ensures forall k :: 0 <= k < |ms| - 1 ==>
      && 1 <= ms[k].level <= 6
      && 0 <= ms[k].position < |s|
      && s[ms[k].position] == '#'
      && MatchesAt(s, ms[k].position)
    ensures forall k, l :: 0 <= k < l < |ms| ==> ms[k].position < ms[l].position
    // each real marker is built from the k-th match: its `#` count, its stripped group 2, its start
    ensures |ms| == |Scan(s, 0)| + 1
    ensures forall k :: 0 <= k < |ms| - 1 ==> ms[k] == MarkerOf(s, Scan(s, 0)[k])
    ensures forall k :: 0 <= k < |ms| - 1 ==> ms[k].level == HashRun(s, ms[k].position)
  {
    var found := Scan(s, 0);
    ScanSound(s, 0);
    ScanIncreasing(s, found);
    forall k | 0 <= k < |found|
      ensures found[k].level == HashRun(s, found[k].start)
    {
      MatchAtShape(s, found[k].start);
    }
    seq(|found|, k requires 0 <= k < |found| => MarkerOf(s, found[k])) + [Marker(0, "END", |s|)]
  }

  /** Matches that do not overlap, in order, start at strictly increasing positions. */
  lemma {:induction false} ScanIncreasing(s: string, ms: seq<HeadingMatch>)
    requires forall k :: 0 <= k < |ms| ==> WellFormed(s, ms[k])
    requires forall k :: 0 <= k < |ms| - 1 ==> ms[k].end <= ms[k + 1].start
    ensures forall k, l :: 0 <= k < l < |ms| ==> ms[k].start < ms[l].start
    decreases |ms|
  {
    if |ms| > 1 {
      var init := ms[..|ms| - 1];
      ScanIncreasing(s, init);
      var last := |ms| - 1;
      assert ms[last - 1].start < ms[last].start;
      forall k, l | 0 <= k < l < |ms|
        ensures ms[k].start < ms[l].start
      {
        if l < last {
          assert init[k] == ms[k] && init[l] == ms[l];
        } else if k < last - 1 {
          assert init[k] == ms[k] && init[last - 1] == ms[last - 1];
        }
      }
    }
  }

  /** Some match in `ms` spans position `p`. */
  predicate Covers(ms: seq<HeadingMatch>, p: int)
  {
    exists k :: 0 <= k < |ms| && ms[k].start <= p < ms[k].end
  }

  lemma CoversCons(m: HeadingMatch, rest: seq<HeadingMatch>, p: int)
    requires m.start <= p < m.end || Covers(rest, p)
    ensures Covers([m] + rest, p)
  {
    var ms := [m] + rest;
    if !(m.start <= p < m.end) {
      var k :| 0 <= k < |rest| && rest[k].start <= p < rest[k].end;
      assert ms[k + 1] == rest[k];
    } else {
      assert ms[0] == m;
    }
  }

  /** The scan skips a position where the pattern does not match at a line start. */
  lemma ScanSkip(s: string, i: nat)
    requires i < |s|
    requires !(IsLineStart(s, i) && MatchAt(s, i).Some?)
    ensures Scan(s, i) == Scan(s, i + 1)
  {
  }

  lemma CoversAfterTake(s: string, i: nat, p: nat, m: HeadingMatch)
    requires i <= |s| && 0 <= m.end
    requires i <= m.end <= |s| && Scan(s, i) == [m] + Scan(s, m.end)
    requires m.start <= p && (p < m.end || Covers(Scan(s, m.end), p))
    ensures Covers(Scan(s, i), p)
  {
    CoversCons(m, Scan(s, m.end), p);
  }

  /** The scan reports the match at a line start and resumes after it. */
  lemma ScanTake(s: string, i: nat)
    requires i < |s| && IsLineStart(s, i) && MatchAt(s, i).Some?
    ensures Scan(s, i) == [MatchAt(s, i).value] + Scan(s, MatchAt(s, i).value.end)
  {
  }

  /**
   Every position where the heading pattern matches at a line start is either
   a reported heading or lies inside the match of an earlier reported heading.
   */
  lemma {:induction false} ScanComplete(s: string, i: nat, p: nat)
    requires i <= p
    requires MatchesAt(s, p)
    ensures Covers(Scan(s, i), p)
    decreases |s| - i, 1
  {
    if IsLineStart(s, i) && MatchAt(s, i).Some? {
      ScanCompleteTake(s, i, p);
    } else {
      ScanCompleteSkip(s, i, p);
    }
  }

  /** The case of `ScanComplete` where the scan moves past `i`. */
  lemma {:induction false} ScanCompleteSkip(s: string, i: nat, p: nat)
    requires i <= p
    requires MatchesAt(s, p)
    requires !(IsLineStart(s, i) && MatchAt(s, i).Some?)
    ensures Covers(Scan(s, i), p)
    decreases |s| - i, 0
  {
    assert i != p;
    ScanSkip(s, i);
    ScanComplete(s, i + 1, p);
  }

  /** The case of `ScanComplete` where the scan reports a match at `i`. */
  lemma {:induction false} ScanCompleteTake(s: string, i: nat, p: nat)
    requires i <= p
    requires MatchesAt(s, p)
    requires i < |s| && IsLineStart(s, i) && MatchAt(s, i).Some?
    ensures Covers(Scan(s, i), p)
    decreases |s| - i, 0
  {
    var m := MatchAt(s, i).value;
    ScanTake(s, i);
    if p >= m.end {
      ScanComplete(s, m.end, p);
    }
    CoversAfterTake(s, i, p, m);
  }

  /** The number of real headings: the list minus its `END` marker. */
  function HeadingCount(s: string): nat
  {
    |ExtractHeadingStructure(s)| - 1
  }

  /** The list holds no heading exactly when the pattern matches at no line start. */
  lemma NoHeadingsIff(s: string)
    ensures HeadingCount(s) == 0 <==> forall p :: 0 <= p < |s| ==> !MatchesAt(s, p)
  {
    if exists p :: 0 <= p < |s| && MatchesAt(s, p) {
      var p :| 0 <= p < |s| && MatchesAt(s, p);
      ScanComplete(s, 0, p);
    }
    if HeadingCount(s) > 0 {
      var ms := ExtractHeadingStructure(s);
      assert MatchesAt(s, ms[0].position);
    }
  }
}
