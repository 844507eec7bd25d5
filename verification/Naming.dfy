/** What creating and deleting records does to lookups by path. */
module Naming {
  import opened Arithmetic
  import opened Bytes
  import opened Chains
  import opened Dirents
  import opened Directory
  import opened Paths
  import opened Resolution
  import opened DirectoryTree
  import opened Placement
  import opened Growth
  import opened Creation

  /** No record of directory `e` has the name. */
  ghost predicate Unused(fs: Fs, t: Tree, e: nat, key: seq<byte>)
    requires Sound(fs, t) && e in t.dirs
  {
    forall i :: 0 <= i < t.dirs[e].length && Exists(Entries(fs, t, e)[i]) ==> NameOf(Entries(fs, t, e)[i]) != key
  }

  /** Record `s` of directory `e`, and no other, has the name. */
  ghost predicate SoleAt(fs: Fs, t: Tree, e: nat, key: seq<byte>, s: nat)
    requires Sound(fs, t) && e in t.dirs
  {
    && s < t.dirs[e].length && Exists(Entries(fs, t, e)[s]) && NameOf(Entries(fs, t, e)[s]) == key
    && forall i :: 0 <= i < t.dirs[e].length && i != s && Exists(Entries(fs, t, e)[i]) ==> NameOf(Entries(fs, t, e)[i]) != key
  }

  /** Both cards have the same directories, kept by the same records. */
  ghost predicate SameHomes(t: Tree, t': Tree) {
    && t'.dirs.Keys == t.dirs.Keys && t'.files == t.files
    && forall e {:trigger t'.dirs[e]} :: e in t.dirs ==> t'.dirs[e].homeDir == t.dirs[e].homeDir && t'.dirs[e].homeSlot == t.dirs[e].homeSlot
  }

  /** The same record, but for the length of a directory that is kept in it. */
  ghost predicate SameRecord(t: Tree, r: Dirent, r': Dirent) {
    && Exists(r') && NameOf(r') == NameOf(r) && FirstCluster(r') == FirstCluster(r)
    && (Length(r) == 0 <==> Length(r') == 0)
    && (FirstCluster(r) !in t.dirs ==> r' == r)
  }

  /** Every record is still there, and `d` is there as well, in slot `s` of directory `e`. */
  ghost predicate Grew(fs: Fs, t: Tree, fs': Fs, t': Tree, e: nat, s: nat, d: Dirent) {
    && WellFormed(fs, t) && WellFormed(fs', t') && SameHomes(t, t') && e in t.dirs
    && (forall y {:trigger t'.dirs[y]} :: y in t.dirs ==> t.dirs[y].length <= t'.dirs[y].length)
    && (forall y, i {:trigger Entries(fs, t, y)[i]} {:trigger Entries(fs', t', y)[i]} ::
          y in t.dirs && 0 <= i < t.dirs[y].length && Exists(Entries(fs, t, y)[i]) ==> SameRecord(t, Entries(fs, t, y)[i], Entries(fs', t', y)[i]))
    && (forall y, i {:trigger Entries(fs', t', y)[i]} ::
          y in t.dirs && 0 <= i < t'.dirs[y].length && Exists(Entries(fs', t', y)[i]) ==>
            (y == e && i == s) || (i < t.dirs[y].length && Exists(Entries(fs, t, y)[i])))
    && s < t'.dirs[e].length && Entries(fs', t', e)[s] == d
    && (s < t.dirs[e].length ==> !Exists(Entries(fs, t, e)[s]))
  }

  /** The slot a new record ends up in. */
  ghost function NewSlot(fs: Fs, t: Tree, e: nat): nat
    requires WellFormed(fs, t) && e in t.dirs
  {
    match PlaceIn(fs, t, e)
    case Deleted(j) => j
    case _ => t.dirs[e].length
  }

  lemma ReplacingGrew(fs: Fs, t: Tree, fs': Fs, e: nat, j: nat, d: Dirent)
    requires Replacing(fs, t, fs', e, j, d) && WellFormed(fs', t) && Exists(d)
    ensures Grew(fs, t, fs', t, e, j, d)
  {
    hide ChainsOk, LengthsOk, RecordsOk, HomeOk, FirstOk, Entries, Exists, Length, FirstCluster, NameOf;
  }

  lemma ExtendingGrew(fs: Fs, t: Tree, fs': Fs, t': Tree, e: nat, d: Dirent, more: seq<nat>)
    requires Extending(fs, t, fs', t', e, d, more) && WellFormed(fs', t') && Exists(d)
    ensures Grew(fs, t, fs', t', e, t.dirs[e].length, d)
  {
    hide ChainsOk, LengthsOk, RecordsOk, FirstOk, Entries, Exists, Length, FirstCluster, NameField, CString, WithLength, Addable;
    HasFirst(fs, t, e);
  }

  lemma CreatedGrew(fs: Fs, t: Tree, fs': Fs, t': Tree, e: nat, d: Dirent)
    requires Created(fs, t, fs', t', e, d) && Addable(t, d)
    ensures Grew(fs, t, fs', t', e, NewSlot(fs, t, e), d)
  {
    hide WellFormed, Replacing, Extending, Exists, PlaceIn;
    match PlaceIn(fs, t, e)
    case Deleted(j) => ReplacingGrew(fs, t, fs', e, j, d);
    case Slack(_) => ExtendingGrew(fs, t, fs', t', e, d, []);
    case NoPlace => ExtendingGrew(fs, t, fs', t', e, d, [FirstFree(fs.fat)]);
  }

  /** The same component leads to the same record after a record with an unused name is added. */
  lemma LookupGrew(fs: Fs, t: Tree, fs': Fs, t': Tree, e: nat, s: nat, d: Dirent, y: nat, x: Name)
    requires Grew(fs, t, fs', t', e, s, d) && Unused(fs, t, e, NameOf(d)) && y in t.dirs
    requires FindName(Entries(fs, t, y), t.dirs[y].length, x) < t.dirs[y].length
    ensures var j := FindName(Entries(fs, t, y), t.dirs[y].length, x);
            FindName(Entries(fs', t', y), t'.dirs[y].length, x) == j && SameRecord(t, Entries(fs, t, y)[j], Entries(fs', t', y)[j])
  {
    hide ChainsOk, LengthsOk, RecordsOk, HomeOk, Entries, Exists, Length, FirstCluster, NameOf, Key;
    var j := FindName(Entries(fs, t, y), t.dirs[y].length, x);
    assert SameRecord(t, Entries(fs, t, y)[j], Entries(fs', t', y)[j]);
    FindNameIs(Entries(fs', t', y), t'.dirs[y].length, x, j);
  }

  lemma FindNameIs(rs: seq<Dirent>, m: nat, x: Name, j: nat)
    requires j < m <= |rs| && Exists(rs[j]) && Matches(x, rs[j])
    requires forall k :: 0 <= k < j ==> !(Exists(rs[k]) && Matches(x, rs[k]))
    ensures FindName(rs, m, x) == j
  {
  }

  lemma DirNotFile(fs: Fs, t: Tree, c: nat)
    requires ChainsOk(fs, t) && c in t.dirs
    ensures c !in t.files && c != END
  {
    assert Heads(fs, c, t.dirs[c].clusters);
    if c in t.files {
      assert Heads(fs, c, t.files[c]);
      HeadsMeet(fs, c, t.dirs[c].clusters, t.files[c]);
    }
  }

  lemma HeadsMeet(fs: Fs, c: nat, cs: seq<nat>, ds: seq<nat>)
    requires Heads(fs, c, cs) && Heads(fs, c, ds)
    ensures !Disjoint(cs, ds)
  {
    assert cs[0] == ds[0];
  }

  lemma GivenAt(fs: Fs, t: Tree, y: nat, j: nat)
    requires WellFormed(fs, t) && y in t.dirs && j < t.dirs[y].length && Exists(Entries(fs, t, y)[j])
    requires FirstCluster(Entries(fs, t, y)[j]) in t.dirs
    ensures Given(t, FirstCluster(Entries(fs, t, y)[j]), Length(Entries(fs, t, y)[j]))
  {
    DirNotFile(fs, t, FirstCluster(Entries(fs, t, y)[j]));
    assert RecordOk(t, y, j, Entries(fs, t, y)[j]);
  }

  lemma SeesGrew(fs: Fs, t: Tree, fs': Fs, t': Tree, e: nat, s: nat, d: Dirent, y: nat, n: nat, n': nat)
    requires Grew(fs, t, fs', t', e, s, d) && y in t.dirs && (n == 0 <==> n' == 0)
    ensures Sees(fs, t, y, n) <==> Sees(fs', t', y, n')
  {
    hide RecordsOk, HomeOk, Entries, Exists, FirstCluster, NameOf, Key;
    HasFirst(fs, t, y);
    assert FirstOk(fs, t, y);
    assert SameRecord(t, Entries(fs, t, y)[0], Entries(fs', t', y)[0]);
  }

  /** A path that led to a record still leads to it. */
  lemma {:induction false} FindGrew(fs: Fs, t: Tree, fs': Fs, t': Tree, e: nat, s: nat, d: Dirent, names: seq<Name>, y: nat, n: nat, n': nat)
    requires Grew(fs, t, fs', t', e, s, d) && Unused(fs, t, e, NameOf(d))
    requires names != [] && OnDirs(fs, t, names, y, n) && Find(fs, t, names, y, n).Found?
    requires Given(t', y, n') && (n == 0 <==> n' == 0)
    ensures OnDirs(fs', t', names, y, n') && Find(fs', t', names, y, n') == Find(fs, t, names, y, n)
    decreases |names|
  {
    hide ChainsOk, LengthsOk, RecordsOk, HomeOk, FirstOk, Entries, Exists, Length, FirstCluster, NameOf, Key, Given, Sees, FindName;
    SeesGrew(fs, t, fs', t', e, s, d, y, n, n');
    LookupGrew(fs, t, fs', t', e, s, d, y, names[0]);
    if |names| > 1 {
      var j := FindName(Entries(fs, t, y), t.dirs[y].length, names[0]);
      GrewGiven(fs, t, fs', t', e, s, d, y, j);
      FindGrew(fs, t, fs', t', e, s, d, names[1..], FirstCluster(Entries(fs, t, y)[j]), Length(Entries(fs, t, y)[j]), Length(Entries(fs', t', y)[j]));
    }
  }

  lemma GrewGiven(fs: Fs, t: Tree, fs': Fs, t': Tree, e: nat, s: nat, d: Dirent, y: nat, j: nat)
    requires Grew(fs, t, fs', t', e, s, d) && y in t.dirs && j < t.dirs[y].length && Exists(Entries(fs, t, y)[j])
    requires FirstCluster(Entries(fs, t, y)[j]) in t.dirs
    ensures j < t'.dirs[y].length && Given(t', FirstCluster(Entries(fs, t, y)[j]), Length(Entries(fs', t', y)[j]))
  {
    hide RecordsOk, HomeOk, FirstOk, Entries, Exists, Length, FirstCluster, NameOf, Key;
    assert SameRecord(t, Entries(fs, t, y)[j], Entries(fs', t', y)[j]);
    GivenAt(fs', t', y, j);
  }

  lemma LeadsHomeGrew(fs: Fs, t: Tree, fs': Fs, t': Tree, e: nat, s: nat, d: Dirent, names: seq<Name>, y: nat)
    requires Grew(fs, t, fs', t', e, s, d) && Unused(fs, t, e, NameOf(d)) && LeadsHome(fs, t, names, y)
    ensures LeadsHome(fs', t', names, y)
  {
    hide ChainsOk, LengthsOk, RecordsOk, HomeOk, FirstOk, Entries, Exists, OnDirs, Find;
    FindGrew(fs, t, fs', t', e, s, d, names, 0, 0, 0);
  }

  lemma UnusedGrew(fs: Fs, t: Tree, fs': Fs, t': Tree, e: nat, s: nat, d: Dirent, y: nat, key: seq<byte>)
    requires Grew(fs, t, fs', t', e, s, d) && y in t.dirs && Unused(fs, t, y, key) && !(y == e && key == NameOf(d))
    ensures Unused(fs', t', y, key)
  {
    hide ChainsOk, LengthsOk, RecordsOk, HomeOk, FirstOk, Entries, Exists, Length, FirstCluster, NameOf;
  }

  lemma SoleGrew(fs: Fs, t: Tree, fs': Fs, t': Tree, e: nat, s: nat, d: Dirent, y: nat, key: seq<byte>, x: nat)
    requires Grew(fs, t, fs', t', e, s, d) && y in t.dirs && SoleAt(fs, t, y, key, x) && !(y == e && key == NameOf(d))
    ensures SoleAt(fs', t', y, key, x) && SameRecord(t, Entries(fs, t, y)[x], Entries(fs', t', y)[x])
  {
    hide ChainsOk, LengthsOk, RecordsOk, HomeOk, FirstOk, Entries, Exists, Length, FirstCluster, NameOf;
  }

  lemma SoleNew(fs: Fs, t: Tree, fs': Fs, t': Tree, e: nat, s: nat, d: Dirent)
    requires Grew(fs, t, fs', t', e, s, d) && Unused(fs, t, e, NameOf(d)) && Exists(d)
    ensures SoleAt(fs', t', e, NameOf(d), s)
  {
    hide ChainsOk, LengthsOk, RecordsOk, HomeOk, FirstOk, Entries, Exists, Length, FirstCluster, NameOf;
  }

  /** One component more: it is looked up among the records of the directory the path leads to. */
  lemma {:induction false} FindBelow(fs: Fs, t: Tree, names: seq<Name>, x: Name, y: nat, n: nat)
    requires WellFormed(fs, t) && names != [] && OnDirs(fs, t, names, y, n) && Find(fs, t, names, y, n).Found?
    requires var o := Find(fs, t, names, y, n); FirstCluster(Entries(fs, t, o.dir)[o.j]) in t.dirs && 0 < Length(Entries(fs, t, o.dir)[o.j])
    ensures OnDirs(fs, t, names + [x], y, n)
    ensures var o := Find(fs, t, names, y, n);
            var c := FirstCluster(Entries(fs, t, o.dir)[o.j]);
            var k := FindName(Entries(fs, t, c), t.dirs[c].length, x);
            Find(fs, t, names + [x], y, n) == if k < t.dirs[c].length then Found(c, k) else Missing
    decreases |names|
  {
    hide ChainsOk, LengthsOk, RecordsOk, HomeOk, FirstOk, Entries, Exists, Length, FirstCluster, FindName;
    var j := FindName(Entries(fs, t, y), t.dirs[y].length, names[0]);
    var r := Entries(fs, t, y)[j];
    assert (names + [x])[0] == names[0];
    if |names| == 1 {
      assert (names + [x])[1..] == [x];
      GivenAt(fs, t, y, j);
    } else {
      assert (names + [x])[1..] == names[1..] + [x];
      FindBelow(fs, t, names[1..], x, FirstCluster(r), Length(r));
    }
  }

  /** A name below a directory leads to the one record that has it, or nowhere when it is unused. */
  lemma FindNamed(fs: Fs, t: Tree, names: seq<Name>, y: nat, x: Name)
    requires LeadsHome(fs, t, names, y)
    ensures OnDirs(fs, t, names + [x], 0, 0)
    ensures Unused(fs, t, y, Key(x)) ==> Find(fs, t, names + [x], 0, 0) == Missing
    ensures forall s :: SoleAt(fs, t, y, Key(x), s) ==> Find(fs, t, names + [x], 0, 0) == Found(y, s)
  {
    hide ChainsOk, LengthsOk, RecordsOk, FirstOk, Entries, Exists, Length, FirstCluster, NameOf, Key, OnDirs, Find;
    assert HomeOk(fs, t, y);
    HasFirst(fs, t, y);
    FindBelow(fs, t, names, x, 0, 0);
    forall s: nat | SoleAt(fs, t, y, Key(x), s)
      ensures FindName(Entries(fs, t, y), t.dirs[y].length, x) == s
    {
      FindNameIs(Entries(fs, t, y), t.dirs[y].length, x, s);
    }
  }
}
