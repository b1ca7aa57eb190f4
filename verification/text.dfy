/**
 Strings and small scanners shared by the chunker and the PDF converter.

 Strings are `seq<char>`. The whitespace class is the one Python uses for
 `str.isspace()`, `str.strip()` and the `\s` escape of `re` on str patterns.
 */
module Text {

  datatype Option<+T> = None | Some(value: T)

  /**
   Python's whitespace as inclusive code-point ranges: `\t` to `\r`, the
   separators `\x1c` to `\x1f` with the space, then the Unicode space
   characters.
   */
  const SpaceRanges: seq<(char, char)> := [
    ('\t', '\r'), ('\U{1C}', ' '), ('\U{85}', '\U{85}'), ('\U{A0}', '\U{A0}'),
    ('\U{1680}', '\U{1680}'), ('\U{2000}', '\U{200A}'), ('\U{2028}', '\U{2029}'),
    ('\U{202F}', '\U{202F}'), ('\U{205F}', '\U{205F}'), ('\U{3000}', '\U{3000}')]

  predicate InRanges(c: char, i: nat)
    decreases |SpaceRanges| - i
  {
    i < |SpaceRanges| && (SpaceRanges[i].0 <= c <= SpaceRanges[i].1 || InRanges(c, i + 1))
  }

  /** `str.isspace()` for one character. */
  predicate IsSpace(c: char) {
    InRanges(c, 0)
  }

  /** The two whitespace characters the chunker's patterns spell out. */
  lemma NewlineAndBlank()
    ensures IsSpace('\n') && IsSpace(' ')
  {
  }

  predicate IsSuffix(t: string, s: string) {
    |t| <= |s| && s[|s| - |t|..] == t
  }

  predicate StartsAt(s: string, i: int, w: string) {
    0 <= i && i + |w| <= |s| && s[i..i + |w|] == w
  }

  // ---------------------------------------------------------------------------
  // Slices
  // ---------------------------------------------------------------------------

  lemma TakeTake<T>(s: seq<T>, a: nat, b: nat)
    requires b <= a <= |s|
    ensures s[..a][..b] == s[..b]
  {
  }

  lemma TakeAll<T>(s: seq<T>, n: nat)
    requires n == |s|
    ensures s[..n] == s
  {
  }

  lemma DropToEnd<T>(s: seq<T>, a: nat, n: nat)
    requires a <= n == |s|
    ensures s[a..n] == s[a..]
  {
  }

  // ---------------------------------------------------------------------------
  // str.strip()
  // ---------------------------------------------------------------------------

  /** Start of the whitespace run that ends at `hi`, looking no further back than `lo`. */
  function SpaceRunStart(s: string, lo: nat, hi: nat): (r: nat)
    requires lo <= hi <= |s|
    ensures lo <= r <= hi
    ensures forall k :: r <= k < hi ==> IsSpace(s[k])
    ensures r == lo || !IsSpace(s[r - 1])
    decreases hi - lo
  {
    if lo < hi && IsSpace(s[hi - 1]) then SpaceRunStart(s, lo, hi - 1) else hi
  }

  /** Number of whitespace characters `strip()` removes from the front. */
  function StripOffset(s: string): (n: nat)
    ensures n <= |s|
  {
    SpaceRunEnd(s, 0)
  }

  /** Python's `s.strip()`: drop leading and trailing whitespace. */
  function Strip(s: string): (r: string)
    ensures StripOffset(s) + |r| <= |s|
    ensures r == s[StripOffset(s)..StripOffset(s) + |r|]
    ensures r == [] || (!IsSpace(r[0]) && !IsSpace(r[|r| - 1]))
    ensures forall i :: 0 <= i < StripOffset(s) ==> IsSpace(s[i])
    ensures forall i :: StripOffset(s) + |r| <= i < |s| ==> IsSpace(s[i])
  {
    var a := StripOffset(s);
    var b := SpaceRunStart(s, a, |s|);
    var r := s[a..b];
    assert r != [] ==> r[0] == s[a] && r[|r| - 1] == s[b - 1];
    r
  }

  /** Stripping is idempotent. */
  lemma StripIdempotent(s: string)
    ensures Strip(Strip(s)) == Strip(s)
  {
    var r := Strip(s);
    assert StripOffset(r) == 0;
    assert SpaceRunStart(r, 0, |r|) == |r|;
    assert r[0..|r|] == r;
  }

  /** The stripped text is empty exactly when the text is all whitespace. */
  lemma StripEmptyIff(s: string)
    ensures Strip(s) == [] <==> forall i :: 0 <= i < |s| ==> IsSpace(s[i])
  {
    var r := Strip(s);
    if r != [] {
      assert s[StripOffset(s)] == r[0];
    }
  }

  // ---------------------------------------------------------------------------
  // str.join and concatenation
  // ---------------------------------------------------------------------------

  /** Python's `sep.join(parts)`. */
  function Join(parts: seq<string>, sep: string): string
  {
    if |parts| == 0 then []
    else if |parts| == 1 then parts[0]
    else Join(parts[..|parts| - 1], sep) + sep + parts[|parts| - 1]
  }

  /** Number of occurrences of `c` in `s`. */
  function CountChar(s: string, c: char): nat
  {
    if |s| == 0 then 0 else CountChar(s[..|s| - 1], c) + (if s[|s| - 1] == c then 1 else 0)
  }

  lemma {:induction false} CountCharAppend(a: string, b: string, c: char)
    ensures CountChar(a + b, c) == CountChar(a, c) + CountChar(b, c)
    decreases |b|
  {
    if |b| == 0 {
      assert a + b == a;
    } else {
      assert (a + b)[..|a + b| - 1] == a + b[..|b| - 1];
      CountCharAppend(a, b[..|b| - 1], c);
    }
  }

  /** The separator count of a join: every gap holds one copy of `sep`. */
  lemma {:induction false} CountCharJoin(parts: seq<string>, sep: string, c: char)
    requires |parts| >= 1
    requires forall k :: 0 <= k < |parts| ==> CountChar(parts[k], c) == 0
    ensures CountChar(Join(parts, sep), c) == (|parts| - 1) * CountChar(sep, c)
    decreases |parts|
  {
    if |parts| > 1 {
      var init, last := parts[..|parts| - 1], parts[|parts| - 1];
      var n := CountChar(sep, c);
      assert forall k :: 0 <= k < |init| ==> init[k] == parts[k];
      CountCharJoin(init, sep, c);
      var j := Join(init, sep);
      assert Join(parts, sep) == j + sep + last;
      CountCharAppend(j + sep, last, c);
      CountCharAppend(j, sep, c);
      assert CountChar(j, c) == (|init| - 1) * n;
      assert CountChar(Join(parts, sep), c) == (|init| - 1) * n + n;
    }
  }

  /** Two occurrences of `c` at distinct indices exactly when it occurs at least twice. */
  lemma {:induction false} CountCharAtLeastTwo(s: string, c: char)
    ensures CountChar(s, c) >= 2 <==>
            exists i, k :: 0 <= i < k < |s| && s[i] == c && s[k] == c
    decreases |s|
  {
    if |s| > 0 {
      var init := s[..|s| - 1];
      CountCharAtLeastTwo(init, c);
      CountCharAtLeastOne(init, c);
      if CountChar(s, c) >= 2 {
        if CountChar(init, c) >= 2 {
          var i, k :| 0 <= i < k < |init| && init[i] == c && init[k] == c;
          assert s[i] == c && s[k] == c;
        } else {
          var i :| 0 <= i < |init| && init[i] == c;
          assert s[i] == c && s[|s| - 1] == c;
        }
      }
      if exists i, k :: 0 <= i < k < |s| && s[i] == c && s[k] == c {
        var i, k :| 0 <= i < k < |s| && s[i] == c && s[k] == c;
        if k < |s| - 1 {
          assert init[i] == c && init[k] == c;
        } else {
          assert init[i] == c;
        }
      }
    }
  }

  lemma {:induction false} CountCharAtLeastOne(s: string, c: char)
    ensures CountChar(s, c) >= 1 <==> exists i :: 0 <= i < |s| && s[i] == c
    decreases |s|
  {
    if |s| > 0 {
      var init := s[..|s| - 1];
      CountCharAtLeastOne(init, c);
      if exists i :: 0 <= i < |s| && s[i] == c {
        var i :| 0 <= i < |s| && s[i] == c;
        if i < |s| - 1 {
          assert init[i] == c;
        }
      }
      if CountChar(init, c) >= 1 {
        var i :| 0 <= i < |init| && init[i] == c;
        assert s[i] == c;
      }
    }
  }

  // ---------------------------------------------------------------------------
  // Scanners
  // ---------------------------------------------------------------------------

  /** First index at or after `i` that is not whitespace (or `|s|`). */
  function SpaceRunEnd(s: string, i: nat): (r: nat)
    requires i <= |s|
    ensures i <= r <= |s|
    ensures forall k :: i <= k < r ==> IsSpace(s[k])
    ensures r == |s| || !IsSpace(s[r])
    decreases |s| - i
  {
    if i < |s| && IsSpace(s[i]) then SpaceRunEnd(s, i + 1) else i
  }

  /** First index at or after `i` holding a newline (or `|s|`): the end of that line. */
  function LineEnd(s: string, i: nat): (e: nat)
    requires i <= |s|
    ensures i <= e <= |s|
    ensures forall k :: i <= k < e ==> s[k] != '\n'
    ensures e == |s| || s[e] == '\n'
    decreases |s| - i
  {
    if i < |s| && s[i] != '\n' then LineEnd(s, i + 1) else i
  }

  /** First index at or after `i` where `w` occurs. */
  function Find(s: string, w: string, i: nat): (r: Option<nat>)
    requires |w| > 0
    ensures r.Some? ==> i <= r.value && StartsAt(s, r.value, w)
    ensures forall k :: i <= k < (if r.Some? then r.value else |s|) ==> !StartsAt(s, k, w)
    decreases |s| - i
  {
    if i + |w| > |s| then None
    else if s[i..i + |w|] == w then Some(i)
    else Find(s, w, i + 1)
  }

  /** An occurrence at or after the starting point is found, there or earlier. */
  lemma FindReaches(s: string, w: string, i: nat, at: nat)
    requires |w| > 0 && i <= at && StartsAt(s, at, w)
    ensures Find(s, w, i).Some? && Find(s, w, i).value <= at
  {
  }

  /** Last index in `[lo, hi)` where `want(s[j])` holds. */
  function LastWhere(s: string, lo: nat, hi: nat, want: char -> bool): (r: Option<nat>)
    requires lo <= hi <= |s|
    ensures r.Some? ==> lo <= r.value < hi && want(s[r.value])
    ensures forall k :: (if r.Some? then r.value + 1 else lo) <= k < hi ==> !want(s[k])
    decreases hi - lo
  {
    if lo == hi then None
    else if want(s[hi - 1]) then Some(hi - 1)
    else LastWhere(s, lo, hi - 1, want)
  }

  // ---------------------------------------------------------------------------
  // str.split("\n")
  // ---------------------------------------------------------------------------

  /** Python's `s.split(c)` for a one-character separator. */
  function SplitOn(s: string, c: char): (parts: seq<string>)
    ensures |parts| >= 1
    ensures forall k, j :: 0 <= k < |parts| && 0 <= j < |parts[k]| ==> parts[k][j] != c
    decreases |s|
  {
    match FindChar(s, c)
    case None => [s]
    case Some(i) => [s[..i]] + SplitOn(s[i + 1..], c)
  }

  function FindChar(s: string, c: char): (r: Option<nat>)
    ensures r.Some? ==> r.value < |s| && s[r.value] == c
    ensures forall k :: 0 <= k < (if r.Some? then r.value else |s|) ==> s[k] != c
  {
    if |s| == 0 then None
    else if s[0] == c then Some(0)
    else match FindChar(s[1..], c)
      case None => None
      case Some(i) => Some(i + 1)
  }

  /** Right-leaning join, convenient for reasoning about a split from the front. */
  lemma {:induction false} JoinCons(head: string, rest: seq<string>, sep: string)
    requires |rest| >= 1
    ensures Join([head] + rest, sep) == head + sep + Join(rest, sep)
    decreases |rest|
  {
    if |rest| == 1 {
      assert ([head] + rest)[..1] == [head];
    } else {
      var all := [head] + rest;
      assert all[..|all| - 1] == [head] + rest[..|rest| - 1];
      JoinCons(head, rest[..|rest| - 1], sep);
    }
  }

  /** Splitting on a character and joining back with it is the identity. */
  lemma {:induction false} SplitOnJoin(s: string, c: char)
    ensures Join(SplitOn(s, c), [c]) == s
    decreases |s|
  {
    var found := FindChar(s, c);
    if found.Some? {
      var i := found.value;
      var tail := s[i + 1..];
      SplitOnFirst(s, c, i);
      SplitOnJoin(tail, c);
      JoinCons(s[..i], SplitOn(tail, c), [c]);
      CutAround(s, i);
    } else {
      assert SplitOn(s, c) == [s];
    }
  }

  /** A text is what lies before index `i`, the character there, and what follows. */
  lemma CutAround(s: string, i: nat)
    requires i < |s|
    ensures s == s[..i] + [s[i]] + s[i + 1..]
  {
  }

  lemma SplitOnFirst(s: string, c: char, i: nat)
    requires FindChar(s, c) == Some(i)
    ensures SplitOn(s, c) == [s[..i]] + SplitOn(s[i + 1..], c)
    ensures |SplitOn(s[i + 1..], c)| >= 1
  {
  }

  // ---------------------------------------------------------------------------
  // Decimal rendering of page numbers
  // ---------------------------------------------------------------------------

  function DigitChar(d: nat): (c: char)
    requires d < 10
    ensures '0' <= c <= '9' && DigitValue(c) == d
  {
    ('0' as int + d) as char
  }

  /** The value of a decimal digit. */
  function DigitValue(c: char): int {
    c as int - '0' as int
  }

  /** The number a string of decimal digits denotes, most significant digit first. */
  function DecimalValue(r: string): int
    decreases |r|
  {
    if |r| == 0 then 0 else 10 * DecimalValue(r[..|r| - 1]) + DigitValue(r[|r| - 1])
  }

  /** Python's `str(n)` for a natural number: its decimal digits, without leading zeros. */
  function NatToString(n: nat): (r: string)
    ensures |r| >= 1
    ensures forall k :: 0 <= k < |r| ==> '0' <= r[k] <= '9'
    ensures DecimalValue(r) == n
    ensures r[0] != '0' || r == "0"
    decreases n
  {
    if n < 10 then [DigitChar(n)]
    else
      var high := NatToString(n / 10);
      var r := high + [DigitChar(n % 10)];
      assert r[..|r| - 1] == high;
      r
  }

  /** Different numbers get different page-number strings. */
  lemma NatToStringInjective(m: nat, n: nat)
    requires NatToString(m) == NatToString(n)
    ensures m == n
  {
  }
}
