/** Breaking long lines of the user interface's messages (BreakLongLanguageString of UI.c). */
module WordWrap {

  /** The width of a run of characters; what the font says of each character is left open. */
  function Width(s: seq<char>, glyph: char -> nat): nat {
    if s == [] then 0 else Width(s[..|s| - 1], glyph) + glyph(s[|s| - 1])
  }

  lemma {:induction false} WidthAppend(s: seq<char>, t: seq<char>, glyph: char -> nat)
    ensures Width(s + t, glyph) == Width(s, glyph) + Width(t, glyph)
  {
    if t == [] {
      assert s + t == s;
    } else {
      assert (s + t)[..|s + t| - 1] == s + t[..|t| - 1];
      WidthAppend(s, t[..|t| - 1], glyph);
    }
  }

  lemma WidthSplit(s: seq<char>, k: nat, glyph: char -> nat)
    requires k <= |s|
    ensures Width(s, glyph) == Width(s[..k], glyph) + Width(s[k..], glyph)
  {
    hide Width;
    WidthAppend(s[..k], s[k..], glyph);
    assert s == s[..k] + s[k..];
  }

  ghost predicate LineFits(line: seq<char>, glyph: char -> nat, max: int) {
    ' ' !in line || Width(line, glyph) < max
  }

  /** `s[p..q]` is a whole line: newlines or the ends of the text on both sides, and none inside. */
  ghost predicate IsLine(s: seq<char>, p: nat, q: nat) {
    && p <= q <= |s| && (p == 0 || s[p - 1] == '\n') && (q == |s| || s[q] == '\n')
    && '\n' !in s[p..q]
  }

  ghost predicate LinesFit(s: seq<char>, glyph: char -> nat, max: int) {
    forall p: nat, q: nat :: IsLine(s, p, q) ==> LineFits(s[p..q], glyph, max)
  }

  /** `s` is `was` with some spaces turned into newlines. */
  ghost predicate OnlySpacesBroken(was: seq<char>, s: seq<char>) {
    |s| == |was| && forall k :: 0 <= k < |s| ==> s[k] == was[k] || (was[k] == ' ' && s[k] == '\n')
  }

  /** A space that was broken where the line ran over is counted once more in the line that starts behind it. */
  function Slack(was: seq<char>, s: seq<char>, p: nat, glyph: char -> nat): nat
    requires p <= |s| == |was|
  {
    if 0 < p && s[p - 1] != was[p - 1] then glyph(' ') else 0
  }

  /** Without the break at `k`, the line it ends would have gone on, at least as far as `c`, to `max` or more. */
  ghost predicate TooWide(was: seq<char>, s: seq<char>, glyph: char -> nat, max: int, p: nat, k: nat, c: nat) {
    && p <= k <= c < |was| == |s| && IsLine(s[..k], p, k)
    && (forall j :: k < j <= c ==> was[j] != ' ' && was[j] != '\n')
    && max <= Width(was[p..c + 1], glyph) + Slack(was, s, p, glyph)
  }

  ghost predicate BreaksNeeded(was: seq<char>, s: seq<char>, glyph: char -> nat, max: int) {
    |s| == |was| && forall k :: 0 <= k < |s| && s[k] != was[k] ==> exists p: nat, c: nat :: TooWide(was, s, glyph, max, p, k, c)
  }

  /** All lines of `s` that end before position `a` fit; a new line starts there. */
  ghost predicate Finished(s: seq<char>, glyph: char -> nat, max: int, a: nat) {
    a <= |s| && (a == 0 || (s[a - 1] == '\n' && LinesFit(s[..a - 1], glyph, max)))
  }

  lemma FinishedNext(s: seq<char>, glyph: char -> nat, max: int, a: nat, k: nat)
    requires Finished(s, glyph, max, a) && a <= k <= |s| && '\n' !in s[a..k] && LineFits(s[a..k], glyph, max)
    ensures LinesFit(s[..k], glyph, max)
  {
    forall p: nat, q: nat | IsLine(s[..k], p, q)
      ensures LineFits(s[..k][p..q], glyph, max)
    {
      if q == k {
        assert s[..k][p..q] == s[a..k];
      } else {
        assert s[..k][p..q] == s[..a - 1][p..q];
        assert IsLine(s[..a - 1], p, q);
      }
    }
  }

  /** Where the loop stands before character `i`: the line began at `a`, and `last` is its latest space, or -1. */
  ghost predicate Scanned(was: seq<char>, s: seq<char>, glyph: char -> nat, max: int, a: nat, i: nat, last: int, screen: int, since: int) {
    && |was| == |s| && a <= i <= |s| && Finished(s, glyph, max, a) && '\n' !in s[a..i]
    && Width(s[a..i], glyph) <= screen <= Width(s[a..i], glyph) + Slack(was, s, a, glyph)
    && if last < 0 then ' ' !in s[a..i]
       else a <= last < i && s[last] == ' ' && ' ' !in s[last + 1..i] && screen < max && since == Width(s[last + 1..i], glyph)
  }

  lemma WidthNext(s: seq<char>, a: nat, i: nat, glyph: char -> nat)
    requires a <= i < |s|
    ensures s[a..i + 1] == s[a..i] + [s[i]] && Width(s[a..i + 1], glyph) == Width(s[a..i], glyph) + glyph(s[i])
  {
    assert s[a..i + 1] == s[a..i] + [s[i]];
    assert s[a..i + 1][..i - a] == s[a..i];
  }

  lemma LineSoFarFits(was: seq<char>, s: seq<char>, glyph: char -> nat, max: int, a: nat, i: nat, last: int, screen: int, since: int)
    requires Scanned(was, s, glyph, max, a, i, last, screen, since)
    ensures LineFits(s[a..i], glyph, max)
  {
  }

  lemma StepNewline(was: seq<char>, s: seq<char>, glyph: char -> nat, max: int, a: nat, i: nat, last: int, screen: int, since: int)
    requires Scanned(was, s, glyph, max, a, i, last, screen, since) && i < |s| && s[i] == '\n'
    ensures Scanned(was, s, glyph, max, i + 1, i + 1, -1, 0, 0)
  {
    LineSoFarFits(was, s, glyph, max, a, i, last, screen, since);
    FinishedNext(s, glyph, max, a, i);
  }

  /** A character that leaves the line as it is: it still fits, or there is no space to break at. */
  lemma StepOn(was: seq<char>, s: seq<char>, glyph: char -> nat, max: int, a: nat, i: nat, last: int, screen: int, since: int)
    requires Scanned(was, s, glyph, max, a, i, last, screen, since) && i < |s| && s[i] != '\n'
    requires screen + glyph(s[i]) < max || (last < 0 && s[i] != ' ')
    ensures if s[i] == ' ' then Scanned(was, s, glyph, max, a, i + 1, i, screen + glyph(s[i]), 0)
            else Scanned(was, s, glyph, max, a, i + 1, last, screen + glyph(s[i]), since + glyph(s[i]))
  {
    WidthNext(s, a, i, glyph);
    if s[i] != ' ' && 0 <= last {
      WidthNext(s, last + 1, i, glyph);
    }
  }

  /** A space at which the line runs over becomes a newline itself. */
  lemma StepBreakHere(was: seq<char>, s: seq<char>, glyph: char -> nat, max: int, a: nat, i: nat, last: int, screen: int, since: int)
    requires Scanned(was, s, glyph, max, a, i, last, screen, since) && i < |s| && s[i] == ' ' == was[i]
    ensures Scanned(was, s[i := '\n'], glyph, max, i + 1, i + 1, -1, glyph(' '), 0)
  {
    var t := s[i := '\n'];
    LineSoFarFits(was, s, glyph, max, a, i, last, screen, since);
    FinishedNext(s, glyph, max, a, i);
    assert t[..i] == s[..i];
  }

  lemma BreakHereIsNeeded(was: seq<char>, s: seq<char>, glyph: char -> nat, max: int, a: nat, i: nat, last: int, screen: int, since: int)
    requires Scanned(was, s, glyph, max, a, i, last, screen, since) && i < |s| && s[i] == ' '
    requires max <= screen + glyph(' ') && s[a..] == was[a..]
    ensures TooWide(was, s[i := '\n'], glyph, max, a, i, i)
  {
    hide Width, LinesFit, LineFits;
    assert s[i := '\n'][..i] == s[..i];
    assert s[..i][a..i] == s[a..i];
    WidthNext(s, a, i, glyph);
    assert was[a..i + 1] == was[a..][..i + 1 - a] == s[a..][..i + 1 - a] == s[a..i + 1];
  }

  /** A character at which the line runs over sends everything behind the latest space to a new line. */
  lemma StepBreakBefore(was: seq<char>, s: seq<char>, glyph: char -> nat, max: int, a: nat, i: nat, last: int, screen: int, since: int)
    requires Scanned(was, s, glyph, max, a, i, last, screen, since) && i < |s| && s[i] != ' ' && s[i] != '\n' && 0 <= last
    ensures Scanned(was, s[last := '\n'], glyph, max, last + 1, i + 1, -1, since + glyph(s[i]), since + glyph(s[i]))
  {
    var t := s[last := '\n'];
    assert s[a..last] == s[a..i][..last - a];
    WidthSplit(s[a..i], last - a, glyph);
    FinishedNext(s, glyph, max, a, last);
    assert t[..last] == s[..last];
    WidthNext(s, last + 1, i, glyph);
    assert t[last + 1..i + 1] == s[last + 1..i + 1];
    assert forall j :: last < j < i ==> s[j] == s[a..i][j - a];
  }

  lemma BreakIsNeeded(was: seq<char>, s: seq<char>, glyph: char -> nat, max: int, a: nat, i: nat, last: int, screen: int, since: int)
    requires Scanned(was, s, glyph, max, a, i, last, screen, since) && i < |s| && s[i] != ' ' && s[i] != '\n' && 0 <= last
    requires max <= screen + glyph(s[i]) && |s| == |was| && s[a..] == was[a..]
    ensures TooWide(was, s[last := '\n'], glyph, max, a, last, i)
  {
    hide Width, LinesFit, LineFits;
    var t := s[last := '\n'];
    assert t[..last] == s[..last];
    NoneInPart(s, a, i, a, last, '\n');
    NoneInPart(s, a, i, last + 1, i, '\n');
    NoneInPart(s, last + 1, i, last + 1, i, ' ');
    SameBehind(was, s, a);
    assert s[..last][a..last] == s[a..last];
    WidthNext(s, a, i, glyph);
    assert was[a..i + 1] == s[a..i + 1];
  }

  lemma NoneInPart(s: seq<char>, a: nat, b: nat, c: nat, d: nat, x: char)
    requires a <= c <= d <= b <= |s| && x !in s[a..b]
    ensures x !in s[c..d] && forall j :: c <= j < d ==> s[j] != x
  {
    forall j | c <= j < d
      ensures s[j] != x
    {
      assert s[a..b][j - a] == s[j];
    }
  }

  lemma SameBehind(was: seq<char>, s: seq<char>, a: nat)
    requires a <= |s| == |was| && s[a..] == was[a..]
    ensures forall j :: a <= j < |s| ==> was[j] == s[j]
  {
    assert forall j :: a <= j < |s| ==> was[j] == was[a..][j - a] && s[j] == s[a..][j - a];
  }

  lemma NeededNext(was: seq<char>, s: seq<char>, glyph: char -> nat, max: int, k: nat, p: nat, c: nat)
    requires BreaksNeeded(was, s, glyph, max) && k < |s| && s[k..] == was[k..]
    requires TooWide(was, s[k := '\n'], glyph, max, p, k, c)
    ensures BreaksNeeded(was, s[k := '\n'], glyph, max)
  {
    var t := s[k := '\n'];
    forall j | 0 <= j < |t| && t[j] != was[j]
      ensures exists p: nat, c: nat :: TooWide(was, t, glyph, max, p, j, c)
    {
      if j < k {
        var p0: nat, c0: nat :| TooWide(was, s, glyph, max, p0, j, c0);
        assert t[..j] == s[..j];
        assert TooWide(was, t, glyph, max, p0, j, c0);
      }
    }
  }

  ghost predicate Wrapped(was: seq<char>, s: seq<char>, glyph: char -> nat, max: int, a: nat) {
    a <= |s| && OnlySpacesBroken(was, s) && BreaksNeeded(was, s, glyph, max) && s[a..] == was[a..]
  }

  lemma WrappedNext(was: seq<char>, s: seq<char>, glyph: char -> nat, max: int, a: nat, k: nat, c: nat)
    requires Wrapped(was, s, glyph, max, a) && a <= k < |s| && s[k] == ' '
    requires TooWide(was, s[k := '\n'], glyph, max, a, k, c)
    ensures Wrapped(was, s[k := '\n'], glyph, max, k + 1)
  {
    assert forall j :: a <= j < |s| ==> was[j] == was[a..][j - a] && s[j] == s[a..][j - a];
    NeededNext(was, s, glyph, max, k, a, c);
  }

  lemma Starts(s: seq<char>, glyph: char -> nat, max: int)
    ensures Scanned(s, s, glyph, max, 0, 0, -1, 0, 0) && Wrapped(s, s, glyph, max, 0)
  {
  }

  lemma ScannedBounds(was: seq<char>, s: seq<char>, glyph: char -> nat, max: int, a: nat, i: nat, last: int, screen: int, since: int)
    requires Scanned(was, s, glyph, max, a, i, last, screen, since)
    ensures a <= i <= |s| && (0 <= last ==> a <= last < i && s[last] == ' ' && since == Width(s[last + 1..i], glyph))
    ensures last < 0 ==> ' ' !in s[a..i]
    ensures 0 <= last ==> forall j :: last < j < i ==> s[j] != ' ' && s[j] != '\n'
  {
    if 0 <= last {
      NoneInPart(s, a, i, last + 1, i, '\n');
      NoneInPart(s, last + 1, i, last + 1, i, ' ');
    }
  }

  lemma WrappedShrinks(was: seq<char>, s: seq<char>, glyph: char -> nat, max: int, a: nat, b: nat)
    requires Wrapped(was, s, glyph, max, a) && a <= b <= |s|
    ensures Wrapped(was, s, glyph, max, b)
  {
    assert s[b..] == s[a..][b - a..] && was[b..] == was[a..][b - a..];
  }

  lemma Ends(was: seq<char>, s: seq<char>, glyph: char -> nat, max: int, a: nat, last: int, screen: int, since: int)
    requires Scanned(was, s, glyph, max, a, |s|, last, screen, since) && Wrapped(was, s, glyph, max, a)
    ensures LinesFit(s, glyph, max) && OnlySpacesBroken(was, s) && BreaksNeeded(was, s, glyph, max)
  {
    LineSoFarFits(was, s, glyph, max, a, |s|, last, screen, since);
    FinishedNext(s, glyph, max, a, |s|);
    assert s[..|s|] == s;
  }

  lemma StepBreak(was: seq<char>, s: seq<char>, glyph: char -> nat, max: int, a: nat, i: nat, last: int, screen: int, since: int)
    requires Scanned(was, s, glyph, max, a, i, last, screen, since) && Wrapped(was, s, glyph, max, a)
    requires i < |s| && s[i] != '\n' && max <= screen + glyph(s[i]) && (0 <= last || s[i] == ' ')
    ensures var at := if s[i] == ' ' then i else last;
            var w := if s[i] == ' ' then 0 else since + glyph(s[i]);
            && 0 <= at <= i
            && Scanned(was, s[at := '\n'], glyph, max, at + 1, i + 1, -1, if s[i] == ' ' then glyph(' ') else w, w)
            && Wrapped(was, s[at := '\n'], glyph, max, at + 1)
  {
    hide Scanned, TooWide, LinesFit, BreaksNeeded;
    ScannedBounds(was, s, glyph, max, a, i, last, screen, since);
    if s[i] == ' ' {
      assert s[i] == s[a..][i - a] == was[a..][i - a] == was[i];
      StepBreakHere(was, s, glyph, max, a, i, last, screen, since);
      BreakHereIsNeeded(was, s, glyph, max, a, i, last, screen, since);
      WrappedNext(was, s, glyph, max, a, i, i);
    } else {
      StepBreakBefore(was, s, glyph, max, a, i, last, screen, since);
      BreakIsNeeded(was, s, glyph, max, a, i, last, screen, since);
      WrappedNext(was, s, glyph, max, a, last, i);
    }
  }

  /** Character `c` makes the line that began at `a` too wide, and there is a space to break it at. */
  predicate Over(was: seq<char>, glyph: char -> nat, max: int, a: nat, slack: nat, c: nat)
    requires a <= c < |was|
  {
    ' ' in was[a..c + 1] && max <= slack + Width(was[a..c + 1], glyph)
  }

  /** Where the line that began at `a` ends, or has to be broken, from `c` on. */
  function Stop(was: seq<char>, glyph: char -> nat, max: int, a: nat, slack: nat, c: nat): (q: nat)
    requires a <= c <= |was|
    ensures c <= q <= |was| && (q < |was| && was[q] != '\n' ==> Over(was, glyph, max, a, slack, q))
    decreases |was| - c
  {
    if c == |was| || was[c] == '\n' || Over(was, glyph, max, a, slack, c) then c else Stop(was, glyph, max, a, slack, c + 1)
  }

  function LastSpace(s: seq<char>, a: nat, c: nat): (k: nat)
    requires a <= c < |s| && ' ' in s[a..c + 1]
    ensures a <= k <= c && s[k] == ' ' && forall j :: k < j <= c ==> s[j] != ' '
    decreases c
  {
    if s[c] == ' ' then c else assert s[a..c + 1] == s[a..c] + [s[c]]; LastSpace(s, a, c - 1)
  }

  /**
   * Line by line: a line that becomes too wide is broken at its latest space. When that is the very character that was too
   * much, the next line is taken to be wider by it.
   */
  function Broken(was: seq<char>, glyph: char -> nat, max: int, a: nat, slack: nat): (r: seq<char>)
    requires a <= |was|
    ensures |r| == |was| - a
    decreases |was| - a
  {
    var q := Stop(was, glyph, max, a, slack, a);
    if q == |was| then was[a..]
    else if was[q] == '\n' then was[a..q + 1] + Broken(was, glyph, max, q + 1, 0)
    else
      var k := LastSpace(was, a, q);
      was[a..k] + ['\n'] + Broken(was, glyph, max, k + 1, if k == q then glyph(' ') else 0)
  }

  /** The loop before character `i`, with everything in front of `a` done and the line from there still whole. */
  ghost predicate Follows(was: seq<char>, s: seq<char>, glyph: char -> nat, max: int, a: nat, i: nat, slack: nat, screen: int) {
    && a <= i <= |s| == |was| && s[a..] == was[a..]
    && Broken(was, glyph, max, 0, 0) == s[..a] + Broken(was, glyph, max, a, slack)
    && Stop(was, glyph, max, a, slack, a) == Stop(was, glyph, max, a, slack, i)
    && screen == slack + Width(was[a..i], glyph)
  }

  lemma BrokenAtNewline(was: seq<char>, glyph: char -> nat, max: int, a: nat, slack: nat, q: nat)
    requires a <= q < |was| && was[q] == '\n' && Stop(was, glyph, max, a, slack, a) == q
    ensures Broken(was, glyph, max, a, slack) == was[a..q + 1] + Broken(was, glyph, max, q + 1, 0)
  {
  }

  lemma BrokenAtSpace(was: seq<char>, glyph: char -> nat, max: int, a: nat, slack: nat, q: nat, k: nat)
    requires a <= k <= q < |was| && was[q] != '\n' && Stop(was, glyph, max, a, slack, a) == q
    requires was[k] == ' ' && forall j :: k < j <= q ==> was[j] != ' '
    ensures Broken(was, glyph, max, a, slack) == was[a..k] + ['\n'] + Broken(was, glyph, max, k + 1, if k == q then glyph(' ') else 0)
  {
    hide Width;
    assert was[a..q + 1][k - a] == ' ';
    assert LastSpace(was, a, q) == k;
  }

  lemma StopsHere(was: seq<char>, glyph: char -> nat, max: int, a: nat, slack: nat, c: nat)
    requires a <= c < |was| && (was[c] == '\n' || Over(was, glyph, max, a, slack, c))
    ensures Stop(was, glyph, max, a, slack, c) == c
  {
  }

  lemma FollowsNewline(was: seq<char>, s: seq<char>, glyph: char -> nat, max: int, a: nat, i: nat, slack: nat, screen: int)
    requires Follows(was, s, glyph, max, a, i, slack, screen) && i < |s| && s[i] == '\n'
    ensures Follows(was, s, glyph, max, i + 1, i + 1, 0, 0)
  {
    hide Width, Over, Stop, Broken;
    SameBehind(was, s, a);
    StopsHere(was, glyph, max, a, slack, i);
    BrokenAtNewline(was, glyph, max, a, slack, i);
    EmptyLine(was, i + 1, glyph);
    assert s[..i + 1] == s[..a] + was[a..i + 1];
    assert s[i + 1..] == was[i + 1..];
    Regroup(s[..a], was[a..i + 1], Broken(was, glyph, max, i + 1, 0));
  }

  lemma EmptyLine(was: seq<char>, a: nat, glyph: char -> nat)
    requires a <= |was|
    ensures Width(was[a..a], glyph) == 0
  {
  }

  lemma FollowsOn(was: seq<char>, s: seq<char>, glyph: char -> nat, max: int, a: nat, i: nat, slack: nat, screen: int)
    requires Follows(was, s, glyph, max, a, i, slack, screen) && i < |s| && s[i] != '\n'
    requires screen + glyph(s[i]) < max || ' ' !in s[a..i + 1]
    ensures Follows(was, s, glyph, max, a, i + 1, slack, screen + glyph(s[i]))
  {
    hide Width;
    SameBehind(was, s, a);
    WidthNext(was, a, i, glyph);
    assert s[a..i + 1] == was[a..i + 1];
  }

  lemma {:induction false} NoStopWithoutSpace(was: seq<char>, glyph: char -> nat, max: int, a: nat, slack: nat, c: nat, i: nat)
    requires a <= c <= i <= |was| && forall j :: a <= j < i ==> was[j] != ' ' && was[j] != '\n'
    ensures Stop(was, glyph, max, a, slack, c) == Stop(was, glyph, max, a, slack, i)
    decreases i - c
  {
    if c < i {
      NoStopWithoutSpace(was, glyph, max, a, slack, c + 1, i);
    }
  }

  lemma FollowsBreak(was: seq<char>, s: seq<char>, glyph: char -> nat, max: int, a: nat, i: nat, slack: nat, screen: int, at: nat)
    requires Follows(was, s, glyph, max, a, i, slack, screen) && i < |s| && s[i] != '\n' && max <= screen + glyph(s[i])
    requires a <= at <= i && s[at] == ' ' && forall j :: at < j <= i ==> s[j] != ' ' && s[j] != '\n'
    ensures Follows(was, s[at := '\n'], glyph, max, at + 1, i + 1, if at == i then glyph(' ') else 0,
                    if at == i then glyph(' ') else Width(s[at + 1..i + 1], glyph))
  {
    hide Width, Over, Stop, Broken;
    SameBehind(was, s, a);
    OverAtSpace(was, glyph, max, a, slack, i, at);
    StopsHere(was, glyph, max, a, slack, i);
    BrokenAtSpace(was, glyph, max, a, slack, i, at);
    var t, next := s[at := '\n'], if at == i then glyph(' ') else 0;
    NoStopWithoutSpace(was, glyph, max, at + 1, next, at + 1, i + 1);
    assert t[..at + 1] == s[..a] + (was[a..at] + ['\n']);
    assert t[at + 1..] == was[at + 1..] && s[at + 1..i + 1] == was[at + 1..i + 1];
    EmptyLine(was, i + 1, glyph);
    Regroup(s[..a], was[a..at] + ['\n'], Broken(was, glyph, max, at + 1, next));
  }

  lemma OverAtSpace(was: seq<char>, glyph: char -> nat, max: int, a: nat, slack: nat, i: nat, at: nat)
    requires a <= at <= i < |was| && was[at] == ' ' && max <= slack + Width(was[a..i], glyph) + glyph(was[i])
    ensures Over(was, glyph, max, a, slack, i)
  {
    WidthNext(was, a, i, glyph);
    assert was[a..i + 1][at - a] == ' ';
  }

  lemma Regroup(x: seq<char>, y: seq<char>, z: seq<char>)
    ensures x + (y + z) == x + y + z
  {
  }

  lemma FollowsToEnd(was: seq<char>, s: seq<char>, glyph: char -> nat, max: int, a: nat, slack: nat, screen: int)
    requires Follows(was, s, glyph, max, a, |s|, slack, screen)
    ensures s == Broken(was, glyph, max, 0, 0)
  {
    assert s == s[..a] + s[a..];
  }

  lemma FollowsFromStart(was: seq<char>, glyph: char -> nat, max: int)
    ensures Follows(was, was, glyph, max, 0, 0, 0, 0)
  {
    assert was[..0] + Broken(was, glyph, max, 0, 0) == Broken(was, glyph, max, 0, 0);
  }

  /**
   * Only spaces are turned into newlines, and only where the line would have become too wide; afterwards every line is
   * narrower than the screen or has no space left to break at.
   */
  method BreakLongLanguageString(str: array<char>, glyph: char -> nat, lineMaxPx: int)
    modifies str
    ensures OnlySpacesBroken(old(str[..]), str[..])
    ensures LinesFit(str[..], glyph, lineMaxPx)
    ensures BreaksNeeded(old(str[..]), str[..], glyph, lineMaxPx)
    ensures str[..] == Broken(old(str[..]), glyph, lineMaxPx, 0, 0)
  {
    hide Scanned, TooWide, LinesFit, BreaksNeeded, OnlySpacesBroken, Width, Wrapped, Follows, Broken;
    ghost var slack: nat := 0;
    var screenLineLenPx, pxSinceLastSpace, lastWhitespaceOut := 0, 0, -1;
    ghost var a: nat := 0;
    ghost var was := str[..];
    Starts(was, glyph, lineMaxPx);
    FollowsFromStart(was, glyph, lineMaxPx);
    var i := 0;
    while i < str.Length
      invariant 0 <= i <= str.Length
      invariant Scanned(was, str[..], glyph, lineMaxPx, a, i, lastWhitespaceOut, screenLineLenPx, pxSinceLastSpace)
      invariant Wrapped(was, str[..], glyph, lineMaxPx, a)
      invariant Follows(was, str[..], glyph, lineMaxPx, a, i, slack, screenLineLenPx)
    {
      var wchar := str[i];
      ghost var s, last := str[..], lastWhitespaceOut;
      ScannedBounds(was, s, glyph, lineMaxPx, a, i, last, screenLineLenPx, pxSinceLastSpace);
      if wchar == '\n' {
        StepNewline(was, s, glyph, lineMaxPx, a, i, last, screenLineLenPx, pxSinceLastSpace);
        WrappedShrinks(was, s, glyph, lineMaxPx, a, i + 1);
        FollowsNewline(was, s, glyph, lineMaxPx, a, i, slack, screenLineLenPx);
        screenLineLenPx := 0;
        lastWhitespaceOut := -1;
        pxSinceLastSpace := 0;
        a, slack := i + 1, 0;
      } else {
        var width := glyph(wchar);
        if screenLineLenPx + width < lineMaxPx || (last < 0 && wchar != ' ') {
          StepOn(was, s, glyph, lineMaxPx, a, i, last, screenLineLenPx, pxSinceLastSpace);
          assert s[a..i + 1] == s[a..i] + [s[i]];
          FollowsOn(was, s, glyph, lineMaxPx, a, i, slack, screenLineLenPx);
        } else {
          StepBreak(was, s, glyph, lineMaxPx, a, i, last, screenLineLenPx, pxSinceLastSpace);
          ghost var at := if wchar == ' ' then i else last;
          FollowsBreak(was, s, glyph, lineMaxPx, a, i, slack, screenLineLenPx, at);
          if at < i { WidthNext(s, at + 1, i, glyph); }
          slack := if at == i then width else 0;
        }
        if wchar == ' ' {
          lastWhitespaceOut := i;
          pxSinceLastSpace := 0;
        }
        if screenLineLenPx + width >= lineMaxPx {
          if lastWhitespaceOut >= 0 {
            screenLineLenPx := pxSinceLastSpace;
            str[lastWhitespaceOut] := '\n';
            assert str[..] == s[lastWhitespaceOut := '\n'];
            a := lastWhitespaceOut + 1;
            lastWhitespaceOut := -1;
          }
        }
        screenLineLenPx := screenLineLenPx + width;
        if wchar != ' ' {
          pxSinceLastSpace := pxSinceLastSpace + width;
        }
      }
      i := i + 1;
    }
    Ends(was, str[..], glyph, lineMaxPx, a, lastWhitespaceOut, screenLineLenPx, pxSinceLastSpace);
    FollowsToEnd(was, str[..], glyph, lineMaxPx, a, slack, screenLineLenPx);
  }

  /** The end of the line that `i` lies in. */
  function LineEnd(s: seq<char>, i: nat): (q: nat)
    requires i <= |s|
    ensures i <= q <= |s| && (q == |s| || s[q] == '\n') && '\n' !in s[i..q]
    decreases |s| - i
  {
    if i == |s| || s[i] == '\n' then i else assert s[i..] == [s[i]] + s[i + 1..]; LineEnd(s, i + 1)
  }

  lemma {:induction false} FirstDifference(was: seq<char>, s: seq<char>, n: nat) returns (k: nat)
    requires n <= |s| == |was| && was[..n] != s[..n]
    ensures k < n && s[k] != was[k] && s[..k] == was[..k]
  {
    if was[..n - 1] == s[..n - 1] {
      k := n - 1;
      assert was[..n] == was[..k] + [was[k]] && s[..n] == s[..k] + [s[k]];
    } else {
      k := FirstDifference(was, s, n - 1);
    }
  }

  /** A text whose lines fit needs no break at all. */
  lemma NoBreakNeeded(was: seq<char>, s: seq<char>, glyph: char -> nat, max: int, k: nat, p: nat, c: nat)
    requires OnlySpacesBroken(was, s) && k < |s| && s[k] != was[k] && s[..k] == was[..k]
    requires TooWide(was, s, glyph, max, p, k, c)
    ensures !LinesFit(was, glyph, max)
  {
    hide Width, LinesFit;
    var q := LineAround(was, s, glyph, max, k, p, c);
    WidthSplit(was[p..q], c + 1 - p, glyph);
    assert was[p..q][..c + 1 - p] == was[p..c + 1];
    assert was[p..q][k - p] == ' ';
    TooWideLine(was, glyph, max, p, q);
  }

  lemma TooWideLine(was: seq<char>, glyph: char -> nat, max: int, p: nat, q: nat)
    requires IsLine(was, p, q) && ' ' in was[p..q] && max <= Width(was[p..q], glyph)
    ensures !LinesFit(was, glyph, max)
  {
  }

  /** The line of the original text in which the break at `k` was made. */
  lemma LineAround(was: seq<char>, s: seq<char>, glyph: char -> nat, max: int, k: nat, p: nat, c: nat) returns (q: nat)
    requires OnlySpacesBroken(was, s) && k < |s| && s[k] != was[k] && s[..k] == was[..k]
    requires TooWide(was, s, glyph, max, p, k, c)
    ensures c < q <= |was| && IsLine(was, p, q)
    ensures Slack(was, s, p, glyph) == 0
  {
    hide Width;
    q := LineEnd(was, c + 1);
    if 0 < p { assert s[p - 1] == s[..k][p - 1] == was[..k][p - 1] == was[p - 1]; }
    forall j | p <= j < q
      ensures was[j] != '\n'
    {
      if j < k {
        assert s[..k][p..k][j - p] == s[..k][j] == was[..k][j] == was[j];
      } else if c < j {
        assert was[c + 1..q][j - c - 1] == was[j];
      }
    }
  }

  /** What wrapping a text may give leaves the text alone exactly if its lines fit already; so wrapping twice is wrapping once. */
  lemma WrappingIsIdempotent(was: seq<char>, s: seq<char>, glyph: char -> nat, max: int)
    requires OnlySpacesBroken(was, s) && LinesFit(s, glyph, max) && BreaksNeeded(was, s, glyph, max)
    ensures s == was <==> LinesFit(was, glyph, max)
  {
    hide TooWide, LinesFit;
    if s != was {
      assert was[..|s|] == was && s[..|s|] == s;
      var k := FirstDifference(was, s, |s|);
      var p: nat, c: nat :| TooWide(was, s, glyph, max, p, k, c);
      NoBreakNeeded(was, s, glyph, max, k, p, c);
    }
  }

  /** A message that is wrapped again, as GetUIString's record of wrapped messages avoids, stays as it is. */
  method WrapTwice(str: array<char>, glyph: char -> nat, lineMaxPx: int) returns (once: seq<char>)
    modifies str
    ensures OnlySpacesBroken(old(str[..]), once) && LinesFit(once, glyph, lineMaxPx)
    ensures str[..] == once
  {
    hide LinesFit, BreaksNeeded, OnlySpacesBroken;
    BreakLongLanguageString(str, glyph, lineMaxPx);
    once := str[..];
    BreakLongLanguageString(str, glyph, lineMaxPx);
    WrappingIsIdempotent(once, str[..], glyph, lineMaxPx);
  }
}
