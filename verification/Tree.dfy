/** A well-formed card: its directories, its files, and who keeps whose length. */
module DirectoryTree {
  import opened Arithmetic
  import opened Bytes
  import opened Chains
  import opened Dirents
  import opened Directory
  import opened DirectoryScan
  import opened Paths
  import opened Resolution

  /**
   * A directory: its clusters, its number of records, and the record that keeps that number,
   * slot `homeSlot` of directory `homeDir`. The root's is its own first record.
   */
  datatype DirInfo = DirInfo(clusters: seq<nat>, length: nat, homeDir: nat, homeSlot: nat)

  /** Directories and files by their first clusters. */
  datatype Tree = Tree(dirs: map<nat, DirInfo>, files: map<nat, seq<nat>>)

  ghost predicate ChainsOk(fs: Fs, t: Tree) {
    && (forall e :: e in t.dirs ==> Heads(fs, e, t.dirs[e].clusters))
    && (forall f :: f in t.files ==> Heads(fs, f, t.files[f]))
    && (forall e, e' {:trigger Disjoint(t.dirs[e].clusters, t.dirs[e'].clusters)} :: e in t.dirs && e' in t.dirs && e != e' ==> Disjoint(t.dirs[e].clusters, t.dirs[e'].clusters))
    && (forall e, f {:trigger Disjoint(t.dirs[e].clusters, t.files[f])} :: e in t.dirs && f in t.files ==> Disjoint(t.dirs[e].clusters, t.files[f]))
    && (forall c :: 0 <= c < |fs.fat| && Free(fs.fat[c]) ==> c < fs.n)
  }

  /** A directory has just the clusters its records need. */
  ghost predicate LengthsOk(fs: Fs, t: Tree) {
    forall e :: e in t.dirs ==> Fits(t.dirs[e], fs.ppc)
  }

  ghost predicate Fits(info: DirInfo, ppc: nat) {
    info.clusters != [] && Times(|info.clusters| - 1, ppc) < info.length <= Times(|info.clusters|, ppc)
  }

  /** The records of a directory. */
  ghost function Entries(fs: Fs, t: Tree, e: nat): (rs: seq<Dirent>)
    requires ChainsOk(fs, t) && LengthsOk(fs, t) && e in t.dirs
    ensures |rs| == t.dirs[e].length
  {
    Slots(fs, t.dirs[e].clusters)[..t.dirs[e].length]
  }

  /** An existing record names a file or a directory, or has no clusters; the length of a directory is kept at its home. */
  ghost predicate RecordOk(t: Tree, e: nat, j: nat, r: Dirent) {
    var c := FirstCluster(r);
    c == END || c in t.files ||
    (c in t.dirs && (Length(r) == 0 || (Length(r) == t.dirs[c].length && t.dirs[c].homeDir == e && t.dirs[c].homeSlot == j)))
  }

  ghost predicate RecordsOk(fs: Fs, t: Tree)
    requires ChainsOk(fs, t) && LengthsOk(fs, t)
  {
    forall e, j :: e in t.dirs && 0 <= j < t.dirs[e].length && Exists(Entries(fs, t, e)[j]) ==> RecordOk(t, e, j, Entries(fs, t, e)[j])
  }

  ghost predicate HomeOk(fs: Fs, t: Tree, e: nat)
    requires ChainsOk(fs, t) && LengthsOk(fs, t) && e in t.dirs
  {
    var info := t.dirs[e];
    && info.homeDir in t.dirs && info.homeSlot < t.dirs[info.homeDir].length
    && var r := Entries(fs, t, info.homeDir)[info.homeSlot];
       Exists(r) && FirstCluster(r) == e && Length(r) == info.length
  }

  /** The first record leads to a directory, and its length is 0 unless the directory's own length is kept there. */
  ghost predicate FirstOk(fs: Fs, t: Tree, e: nat)
    requires ChainsOk(fs, t) && LengthsOk(fs, t) && e in t.dirs
  {
    var r := Entries(fs, t, e)[0];
    Exists(r) && FirstCluster(r) in t.dirs &&
    (Length(r) == 0 || (t.dirs[e].homeDir == e && t.dirs[e].homeSlot == 0 && Length(r) == t.dirs[e].length))
  }

  ghost predicate WellFormed(fs: Fs, t: Tree) {
    && FsOk(fs) && ChainsOk(fs, t) && LengthsOk(fs, t) && RecordsOk(fs, t)
    && (forall e {:trigger HomeOk(fs, t, e)} :: e in t.dirs ==> HomeOk(fs, t, e))
    && (forall e {:trigger FirstOk(fs, t, e)} :: e in t.dirs ==> FirstOk(fs, t, e))
    && 0 in t.dirs && t.dirs[0].homeDir == 0 && t.dirs[0].homeSlot == 0
    // The first cluster of the root is filled by records that lead back to the root: "." and "..".
    && fs.ppc <= t.dirs[0].length
    && forall k :: 0 <= k < fs.ppc ==> Exists(Entries(fs, t, 0)[k]) && FirstCluster(Entries(fs, t, 0)[k]) == 0
  }

  lemma RootIsSelf(fs: Fs, t: Tree)
    requires WellFormed(fs, t)
    ensures RootSelf(fs)
  {
    var cs := t.dirs[0].clusters;
    forall k | 0 <= k < fs.ppc
      ensures Exists(RecordOf(ClusterPages(fs, 0)[k])) ==> FirstCluster(RecordOf(ClusterPages(fs, 0)[k])) == 0
    {
      assert InCluster(k, 0, fs.ppc, k);
      SlotAt(fs, cs, k, 0, k);
      assert Entries(fs, t, 0)[k] == Slots(fs, cs)[k];
    }
  }

  /** Whether a scan that is given `nRecords` sees the records of the directory at all. */
  ghost predicate Sees(fs: Fs, t: Tree, e: nat, nRecords: nat)
    requires ChainsOk(fs, t) && LengthsOk(fs, t) && e in t.dirs
  {
    0 < nRecords || 0 < Length(Entries(fs, t, e)[0])
  }

  /** The lengths a scan of directory `e` can be given on a well-formed card. */
  ghost predicate Given(t: Tree, e: nat, nRecords: nat)
    requires e in t.dirs
  {
    nRecords == 0 || nRecords == t.dirs[e].length
  }

  /** On a well-formed card a lookup scans the records of the directory, or none of them. */
  lemma LookupInDir(fs: Fs, t: Tree, e: nat, nRecords: nat, name: Name)
    requires WellFormed(fs, t) && e in t.dirs && Given(t, e, nRecords)
    ensures HasChain(fs, e) && ChainOf(fs, e) == t.dirs[e].clusters
    ensures var rs := Entries(fs, t, e);
            var j := FindName(rs, |rs|, name);
            if Sees(fs, t, e, nRecords) && j < |rs| then Lookup(fs, e, nRecords, name) == j < |SlotsFrom(fs, e)| && SlotsFrom(fs, e)[j] == rs[j]
            else Lookup(fs, e, nRecords, name) == |SlotsFrom(fs, e)|
  {
    assert FirstOk(fs, t, e);
    ChainOfIs(fs, e, t.dirs[e].clusters);
    var all, rs := SlotsFrom(fs, e), Entries(fs, t, e);
    assert rs[0] == all[0];
    var m := Bound(all, nRecords);
    assert m == if Sees(fs, t, e, nRecords) then |rs| else 0;
    FindNamePrefix(all, m, name);
    assert all[..|rs|] == rs;
  }

  lemma {:induction false} FindNamePrefix(rs: seq<Dirent>, m: nat, name: Name)
    requires m <= |rs|
    ensures FindName(rs[..m], m, name) == FindName(rs, m, name)
    decreases m
  {
    if m > 0 {
      FindNamePrefix(rs, m - 1, name);
      FindNamePrefix(rs[..m], m - 1, name);
      assert rs[..m][..m - 1] == rs[..m - 1];
    }
  }

  /** Every component of the path but the last names a directory. */
  ghost predicate OnDirs(fs: Fs, t: Tree, names: seq<Name>, e: nat, nRecords: nat)
    requires WellFormed(fs, t) && names != []
    decreases |names|
  {
    && e in t.dirs && Given(t, e, nRecords)
    && var rs := Entries(fs, t, e);
       var j := FindName(rs, |rs|, names[0]);
       (Sees(fs, t, e, nRecords) && j < |rs| && |names| > 1 ==> OnDirs(fs, t, names[1..], FirstCluster(rs[j]), Length(rs[j])))
  }

  /** Lookup along directories, in terms of their records alone. */
  ghost function Find(fs: Fs, t: Tree, names: seq<Name>, e: nat, nRecords: nat): (o: Outcome)
    requires WellFormed(fs, t) && names != [] && OnDirs(fs, t, names, e, nRecords)
    ensures o.Found? || o.Missing?
    ensures o.Found? ==> o.dir in t.dirs && o.j < t.dirs[o.dir].length && Exists(Entries(fs, t, o.dir)[o.j])
    decreases |names|
  {
    var rs := Entries(fs, t, e);
    var j := FindName(rs, |rs|, names[0]);
    if !(Sees(fs, t, e, nRecords) && j < |rs|) then Missing
    else if |names| == 1 then Found(e, j)
    else Find(fs, t, names[1..], FirstCluster(rs[j]), Length(rs[j]))
  }

  /** The cluster-level walk and the lookup on records agree along directories. */
  lemma {:induction false} ResolveIsFind(fs: Fs, t: Tree, names: seq<Name>, e: nat, nRecords: nat)
    requires WellFormed(fs, t) && names != [] && OnDirs(fs, t, names, e, nRecords)
    ensures Resolve(fs, names, e, nRecords) == Find(fs, t, names, e, nRecords)
    decreases |names|
  {
    LookupInDir(fs, t, e, nRecords, names[0]);
    var rs := Entries(fs, t, e);
    var j := FindName(rs, |rs|, names[0]);
    if Sees(fs, t, e, nRecords) && j < |rs| && |names| > 1 {
      assert FirstCluster(rs[j]) < fs.n;
      ResolveIsFind(fs, t, names[1..], FirstCluster(rs[j]), Length(rs[j]));
    }
  }

  /** What formatting leaves: a root of two records, which keeps its own length, and no files. */
  const FORMATTED := Tree(map[0 := DirInfo([0], 2, 0, 0)], map[])

  ghost predicate Formatted(fs: Fs) {
    && FsOk(fs) && 0 < fs.n && fs.ppc == 2 && fs.fat[0] == END
    && (forall c :: 0 <= c < |fs.fat| && Free(fs.fat[c]) ==> c < fs.n)
    && var dot, dotdot := RecordOf(ClusterPages(fs, 0)[0]), RecordOf(ClusterPages(fs, 0)[1]);
       && Exists(dot) && FirstCluster(dot) == 0 && Length(dot) == 2
       && Exists(dotdot) && FirstCluster(dotdot) == 0 && Length(dotdot) == 0
  }

  lemma FormattedEntries(fs: Fs)
    requires Formatted(fs)
    ensures ChainsOk(fs, FORMATTED) && LengthsOk(fs, FORMATTED)
    ensures Entries(fs, FORMATTED, 0) == [RecordOf(ClusterPages(fs, 0)[0]), RecordOf(ClusterPages(fs, 0)[1])]
  {
    hide Exists, FirstCluster, Length, Free;
    var cs := [0];
    assert IsChain(fs.fat, fs.n, cs);
    assert Heads(fs, 0, cs);
    assert Times(1, fs.ppc) == Times(0, fs.ppc) + fs.ppc;
    forall k | 0 <= k < 2
      ensures Slots(fs, cs)[k] == RecordOf(ClusterPages(fs, 0)[k])
    {
      assert InCluster(k, 0, fs.ppc, k);
      SlotAt(fs, cs, k, 0, k);
    }
    assert Fits(FORMATTED.dirs[0], fs.ppc);
  }

  /** A freshly formatted card is well-formed: this is where every run of creations and deletions starts from. */
  lemma FormattedIsWellFormed(fs: Fs)
    requires Formatted(fs)
    ensures WellFormed(fs, FORMATTED)
  {
    hide Exists, FirstCluster, Length, Entries, ChainsOk, LengthsOk, Slots, Pages, ClusterPages, FsOk;
    FormattedEntries(fs);
  }

  /** There are such cards. */
  lemma FormattedCardExists()
    ensures exists fs :: Formatted(fs)
  {
    var zero: Dirent := seq(DIRENT_SIZE, _ => 0);
    assert FirstCluster(zero) == 0;
    var dot, dotdot := WithName(WithMode(WithLength(zero, 2), 0x8427), [46]), WithName(WithMode(WithLength(zero, 0), 0x8427), [46, 46]);
    var fs := Fs([END, 0, 0], [dot, dotdot, zero, zero, zero, zero], 2, 3);
    assert Times(3, 2) == Times(2, 2) + 2 && Times(2, 2) == Times(1, 2) + 2 && Times(1, 2) == Times(0, 2) + 2;
    assert ClusterPages(fs, 0)[0] == dot && ClusterPages(fs, 0)[1] == dotdot;
    assert Formatted(fs);
  }
}
