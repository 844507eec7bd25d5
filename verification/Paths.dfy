/** Paths, cut at slashes and backslashes the way strtok does. */
module Paths {
  import opened Bytes

  const SLASH: byte := 0x2F
  const BACKSLASH: byte := 0x5C

  type Name = seq<byte>

  predicate IsSeparator(b: byte) {
    b == SLASH || b == BACKSLASH
  }

  /** The length of the run at the front of `s` that has no separator. */
  function RunLength(s: seq<byte>): (n: nat)
    ensures n <= |s| && (n < |s| ==> IsSeparator(s[n]))
    ensures forall k :: 0 <= k < n ==> !IsSeparator(s[k])
  {
    if s == [] || IsSeparator(s[0]) then 0 else 1 + RunLength(s[1..])
  }

  function SkipSeparators(s: seq<byte>): (r: seq<byte>)
    ensures |r| <= |s| && (r != [] ==> !IsSeparator(r[0]))
    ensures forall i :: 0 <= i < |r| ==> r[i] in s
  {
    if s != [] && IsSeparator(s[0]) then SkipSeparators(s[1..]) else s
  }

  /** What one call of strtok yields: NULL, or a component and what is left behind it. */
  datatype Token = NoToken | Token(name: Name, rest: seq<byte>)

  function NextToken(s: seq<byte>): (t: Token)
    ensures t.Token? ==> t.name != [] && |t.rest| < |s|
    ensures t.Token? ==> forall i :: 0 <= i < |t.name| ==> t.name[i] in s && !IsSeparator(t.name[i])
    ensures t.Token? ==> forall i :: 0 <= i < |t.rest| ==> t.rest[i] in s
  {
    var r := SkipSeparators(s);
    if r == [] then NoToken else Token(r[..RunLength(r)], r[RunLength(r)..])
  }

  /** All the components of a path. */
  function Components(s: seq<byte>): (cs: seq<Name>)
    ensures forall k :: 0 <= k < |cs| ==> cs[k] != []
    decreases |s|
  {
    match NextToken(s)
    case NoToken => []
    case Token(name, rest) => [name] + Components(rest)
  }

  lemma {:induction false} RunIs(s: seq<byte>, n: nat)
    requires n <= |s| && (n < |s| ==> IsSeparator(s[n]))
    requires forall k :: 0 <= k < n ==> !IsSeparator(s[k])
    ensures RunLength(s) == n
  {
  }

  lemma {:induction false} TokenOfJoin(a: seq<byte>, b: seq<byte>)
    ensures NextToken(a + [SLASH] + b) ==
            match NextToken(a) { case NoToken => NextToken(b) case Token(name, rest) => Token(name, rest + [SLASH] + b) }
  {
    var s := a + [SLASH] + b;
    if a == [] {
      assert s[1..] == b;
      assert SkipSeparators(s) == SkipSeparators(b);
    } else if IsSeparator(a[0]) {
      assert s[1..] == a[1..] + [SLASH] + b;
      TokenOfJoin(a[1..], b);
    } else {
      var n := RunLength(a);
      RunIs(s, n);
      assert s[n..] == a[n..] + [SLASH] + b && s[..n] == a[..n];
    }
  }

  /** Joining two paths with a slash joins their components. */
  lemma {:induction false} ComponentsJoin(a: seq<byte>, b: seq<byte>)
    ensures Components(a + [SLASH] + b) == Components(a) + Components(b)
    decreases |a|
  {
    hide NextToken;
    TokenOfJoin(a, b);
    var t := NextToken(a);
    if t.Token? {
      ComponentsJoin(t.rest, b);
      assert Components(a + [SLASH] + b) == [t.name] + Components(t.rest + [SLASH] + b);
    }
  }

  /** Runs of separators around and between the parts. */
  function Interleaved(gaps: seq<seq<byte>>, parts: seq<Name>): seq<byte>
    requires |gaps| == |parts| + 1
  {
    if parts == [] then gaps[0] else gaps[0] + parts[0] + Interleaved(gaps[1..], parts[1..])
  }

  ghost predicate AreGaps(gaps: seq<seq<byte>>) {
    && (forall k, i :: 0 <= k < |gaps| && 0 <= i < |gaps[k]| ==> gaps[k][i] == 0x2F || gaps[k][i] == 0x5C)
    && forall k :: 0 < k < |gaps| - 1 ==> gaps[k] != []
  }

  ghost predicate AreParts(parts: seq<Name>) {
    forall k :: 0 <= k < |parts| ==> parts[k] != [] && 0x2F !in parts[k] && 0x5C !in parts[k]
  }

  /** A path is cut into what lies between its runs of slashes and backslashes, whatever these are. */
  lemma {:induction false} ComponentsAreParts(gaps: seq<seq<byte>>, parts: seq<Name>)
    requires |gaps| == |parts| + 1 && AreGaps(gaps) && AreParts(parts)
    ensures Components(Interleaved(gaps, parts)) == parts
    decreases |parts|
  {
    var s := Interleaved(gaps, parts);
    if parts == [] {
      Skipped(gaps[0], []);
    } else {
      var rest := Interleaved(gaps[1..], parts[1..]);
      assert s == gaps[0] + (parts[0] + rest);
      Skipped(gaps[0], parts[0] + rest);
      RestIsGap(gaps, parts);
      RunIs(parts[0] + rest, |parts[0]|);
      assert (parts[0] + rest)[..|parts[0]|] == parts[0] && (parts[0] + rest)[|parts[0]|..] == rest;
      ComponentsAreParts(gaps[1..], parts[1..]);
    }
  }

  lemma RestIsGap(gaps: seq<seq<byte>>, parts: seq<Name>)
    requires |gaps| == |parts| + 1 && AreGaps(gaps) && AreParts(parts) && parts != []
    ensures AreGaps(gaps[1..]) && AreParts(parts[1..])
    ensures var rest := Interleaved(gaps[1..], parts[1..]);
            rest != [] ==> IsSeparator(rest[0])
  {
    assert |parts| > 1 ==> gaps[1] != [];
  }

  lemma {:induction false} Skipped(gap: seq<byte>, s: seq<byte>)
    requires (forall i :: 0 <= i < |gap| ==> gap[i] == 0x2F || gap[i] == 0x5C) && (s != [] ==> s[0] != 0x2F && s[0] != 0x5C)
    ensures SkipSeparators(gap + s) == s
  {
    if gap == [] {
      assert gap + s == s;
    } else {
      assert (gap + s)[1..] == gap[1..] + s;
      Skipped(gap[1..], s);
    }
  }

  /** A name that strtok leaves whole. */
  predicate PlainName(s: seq<byte>) {
    s != [] && forall k :: 0 <= k < |s| ==> !IsSeparator(s[k])
  }

  lemma {:induction false} SingleComponent(s: seq<byte>)
    requires PlainName(s)
    ensures Components(s) == [s]
  {
    RunIs(s, |s|);
    assert s[..|s|] == s && s[|s|..] == [];
  }
}
