/** The two writes that add a record behind the last one: the record itself, then the length kept at the directory's home. */
module Appending {
  import opened Arithmetic
  import opened Bytes
  import opened Chains
  import opened Dirents
  import opened Directory
  import opened DirectoryScan
  import opened RecordUpdate
  import opened Paths
  import opened Resolution
  import opened SlotEdits
  import opened DirectoryTree
  import opened Placement
  import opened Growth

  /** The card between the two writes. */
  ghost predicate Midway(fs: Fs, t: Tree, fs1: Fs, t': Tree, e: nat, d: Dirent) {
    && WellFormed(fs, t) && e in t.dirs
    && Sound(fs1, t') && fs1.ppc == fs.ppc && fs1.n == fs.n
    && t'.files == t.files && t'.dirs.Keys == t.dirs.Keys
    && (forall x {:trigger Entries(fs1, t', x)} :: x in t.dirs ==> Entries(fs1, t', x) == if x == e then Entries(fs, t, e) + [d] else Entries(fs, t, x))
    && (forall f :: f in t.files ==> Pages(fs1, t.files[f]) == Pages(fs, t.files[f]))
  }

  /** First write, into the slack of the last cluster. */
  lemma WriteInSlack(fs: Fs, t: Tree, e: nat, c: nat, k: nat, d: Dirent)
    requires WellFormed(fs, t) && e in t.dirs && PlaceIn(fs, t, e).Slack?
    requires Located(fs, t.dirs[e].clusters, t.dirs[e].length, c, k)
    ensures c < fs.n && k < fs.ppc
    ensures Midway(fs, t, SetRecord(fs, c, k, d), Grown(t, e, []), e, d)
  {
    hide ChainsOk, IsDir, IsChain, SetRecord, Slots, Pages, RecordsOk, HomeOk, FirstOk, FindPlace, Appended, FindName, Exists, Length, FirstCluster, WithLength;
    PlaceIs(fs, t, e);
    EditSlot(fs, t, e, t.dirs[e].length, c, k, d);
    var fs1, t' := SetRecord(fs, c, k, d), Grown(t, e, []);
    SameChains(fs1, t, e);
    assert LengthsOk(fs1, t') by {
      assert Fits(t.dirs[e], fs.ppc);
    }
    forall x | x in t.dirs
      ensures Entries(fs1, t', x) == if x == e then Entries(fs, t, e) + [d] else Entries(fs, t, x)
    {
      assert DirSlots(fs1, t, x) == DirSlots(fs1, t', x);
    }
  }

  lemma SameChains(fs: Fs, t: Tree, e: nat)
    requires ChainsOk(fs, t) && e in t.dirs
    ensures ChainsOk(fs, Grown(t, e, []))
    ensures Grown(t, e, []).dirs[e].clusters == t.dirs[e].clusters
  {
    assert t.dirs[e].clusters + [] == t.dirs[e].clusters;
  }

  lemma NewClusterSlots(fs: Fs, t: Tree, e: nat, c: nat, d: Dirent, hooked: Fs, t': Tree)
    requires WellFormed(fs, t) && e in t.dirs && PlaceIn(fs, t, e).NoPlace? && Hooked(fs, t, e, c, hooked, t')
    ensures c < fs.n && FsOk(hooked) && ChainsOk(hooked, t') && t.dirs[e].length == |DirSlots(fs, t, e)| < |DirSlots(hooked, t', e)|
    ensures var fs1 := SetRecord(hooked, c, 0, d);
            && Sound(fs1, t') && FilesKept(hooked, fs1, t')
            && forall x {:trigger DirSlots(fs1, t', x)} :: x in t.dirs ==>
                 DirSlots(fs1, t', x) == if x == e then DirSlots(hooked, t', e)[t.dirs[e].length := d] else DirSlots(hooked, t', x)
  {
    hide SetRecord, Slots, Pages, RecordsOk, HomeOk, FirstOk, FindPlace, Appended, FindName, Exists, Length, FirstCluster, WithLength, IsChain;
    PlaceIs(fs, t, e);
    HookChains(fs, t, e, c, hooked, t');
    HookSelf(fs, t, e, c, hooked, t');
    EditSlot(hooked, t', e, t.dirs[e].length, c, 0, d);
    GrownFits(t, e, c, fs.ppc);
    assert forall x :: x in t.dirs ==> Fits(t.dirs[x], fs.ppc);
  }

  /** First write, into a cluster hooked behind a directory that is full. */
  lemma WriteInNewCluster(fs: Fs, t: Tree, e: nat, c: nat, d: Dirent, hooked: Fs, t': Tree)
    requires WellFormed(fs, t) && e in t.dirs && PlaceIn(fs, t, e).NoPlace? && Hooked(fs, t, e, c, hooked, t')
    ensures c < fs.n && FsOk(hooked)
    ensures Midway(fs, t, SetRecord(hooked, c, 0, d), t', e, d)
  {
    hide Slots, Pages, RecordsOk, HomeOk, FirstOk, FindPlace, FindName, Exists, Length, FirstCluster, WithLength, IsChain, Entries, DirSlots, ChainsOk;
    NewClusterSlots(fs, t, e, c, d, hooked, t');
    var fs1 := SetRecord(hooked, c, 0, d);
    forall x | x in t.dirs
      ensures Entries(fs1, t', x) == if x == e then Entries(fs, t, e) + [d] else Entries(fs, t, x)
    {
      HookedEntries(fs, t, e, c, d, hooked, t', fs1, x);
    }
    HookedFiles(fs, t, e, c, hooked, t', fs1);
  }

  lemma HookedFiles(fs: Fs, t: Tree, e: nat, c: nat, hooked: Fs, t': Tree, fs1: Fs)
    requires Hooked(fs, t, e, c, hooked, t') && ChainsOk(hooked, t') && ChainsOk(fs1, t') && FilesKept(hooked, fs1, t')
    ensures forall f :: f in t.files ==> Pages(fs1, t.files[f]) == Pages(fs, t.files[f])
  {
    hide Pages;
    forall f | f in t.files
      ensures Pages(fs1, t.files[f]) == Pages(fs, t.files[f])
    {
      assert Disjoint(t.dirs[e].clusters, t.files[f]);
      HookOther(fs, t, e, c, hooked, t', t.files[f]);
    }
  }

  lemma GrownFits(t: Tree, e: nat, c: nat, ppc: nat)
    requires e in t.dirs && 0 < ppc && t.dirs[e].clusters != [] && t.dirs[e].length == Times(|t.dirs[e].clusters|, ppc)
    ensures Fits(Grown(t, e, [c]).dirs[e], ppc)
  {
  }

  lemma HookedEntries(fs: Fs, t: Tree, e: nat, c: nat, d: Dirent, hooked: Fs, t': Tree, fs1: Fs, x: nat)
    requires WellFormed(fs, t) && e in t.dirs && Hooked(fs, t, e, c, hooked, t') && x in t.dirs
    requires t.dirs[e].length == |DirSlots(fs, t, e)|
    requires Sound(fs1, t') && ChainsOk(hooked, t') && t.dirs[e].length < |DirSlots(hooked, t', e)|
    requires DirSlots(fs1, t', x) == if x == e then DirSlots(hooked, t', e)[t.dirs[e].length := d] else DirSlots(hooked, t', x)
    ensures Entries(fs1, t', x) == if x == e then Entries(fs, t, e) + [d] else Entries(fs, t, x)
  {
    hide Pages, Free, IsChain;
    if x == e {
      HookSelf(fs, t, e, c, hooked, t');
    } else {
      assert Disjoint(t.dirs[e].clusters, t.dirs[x].clusters);
      HookOther(fs, t, e, c, hooked, t', t.dirs[x].clusters);
    }
  }

  /** Second write: the card is well-formed again. */
  lemma CountAtHome(fs: Fs, t: Tree, fs1: Fs, t': Tree, e: nat, d: Dirent, more: seq<nat>, c: nat, k: nat)
    requires Midway(fs, t, fs1, t', e, d) && t' == Grown(t, e, more) && HomeOk(fs, t, e)
    requires Addable(t, d) && t.dirs[e].length + 1 < U32_RANGE
    requires Located(fs1, t'.dirs[t.dirs[e].homeDir].clusters, t.dirs[e].homeSlot, c, k)
    ensures c < fs1.n && k < fs1.ppc
    ensures var r := Entries(fs, t, t.dirs[e].homeDir)[t.dirs[e].homeSlot];
            var fs2 := SetRecord(fs1, c, k, WithLength(r, t.dirs[e].length + 1));
            && Extending(fs, t, fs2, t', e, d, more) && WellFormed(fs2, t')
            && (forall f :: f in t.files ==> Pages(fs2, t.files[f]) == Pages(fs, t.files[f]))
  {
    hide ChainsOk, IsDir, IsChain, SetRecord, Slots, Pages, RecordsOk, FirstOk, FindPlace, Appended, FindName, Exists, Length,
         FirstCluster, WithLength, Entries, DirSlots;
    var p, j := t.dirs[e].homeDir, t.dirs[e].homeSlot;
    var r := WithLength(Entries(fs, t, p)[j], t.dirs[e].length + 1);
    EditSlot(fs1, t', p, j, c, k, r);
    var fs2 := SetRecord(fs1, c, k, r);
    forall x | x in t.dirs
      ensures Entries(fs2, t', x) == Extended(fs, t, e, d, x)
    {
      CountedEntries(fs, t, fs1, t', fs2, e, d, x);
    }
    ExtendWellFormed(fs, t, fs2, t', e, d, more);
  }

  lemma CountedEntries(fs: Fs, t: Tree, fs1: Fs, t': Tree, fs2: Fs, e: nat, d: Dirent, x: nat)
    requires Midway(fs, t, fs1, t', e, d) && HomeOk(fs, t, e) && x in t.dirs && t.dirs[e].length + 1 < U32_RANGE
    requires Sound(fs2, t')
    requires var p, j := t.dirs[e].homeDir, t.dirs[e].homeSlot;
             && j < |DirSlots(fs1, t', p)| && j < t'.dirs[p].length
             && DirSlots(fs2, t', x) == if x == p then DirSlots(fs1, t', p)[j := WithLength(Entries(fs, t, p)[j], t.dirs[e].length + 1)] else DirSlots(fs1, t', x)
    ensures Entries(fs2, t', x) == Extended(fs, t, e, d, x)
  {
    hide ChainsOk, IsDir, IsChain, SetRecord, Slots, Pages, RecordsOk, FirstOk, FindPlace, Appended, FindName, Exists, Length,
         FirstCluster, WithLength;
    var p, j := t.dirs[e].homeDir, t.dirs[e].homeSlot;
    var r := WithLength(Entries(fs, t, p)[j], t.dirs[e].length + 1);
    TakeUpdate(DirSlots(fs1, t', p), j, r, t'.dirs[p].length);
    assert Entries(fs2, t', x) == if x == p then Entries(fs1, t', p)[j := r] else Entries(fs1, t', x);
  }

  lemma TakeUpdate<T>(s: seq<T>, j: nat, r: T, n: nat)
    requires j < n <= |s|
    ensures s[j := r][..n] == s[..n][j := r]
  {
  }

  /** Between the two writes every scan of the old records still sees just those. */
  ghost predicate Steady(fs: Fs, t: Tree, fs1: Fs)
    requires Sound(fs, t)
  {
    && (forall e {:trigger HasChain(fs1, e)} :: e in t.dirs ==> HasChain(fs1, e))
    && (forall e {:trigger SlotsFrom(fs1, e)} :: e in t.dirs ==> t.dirs[e].length <= |SlotsFrom(fs1, e)| &&
                                                                 SlotsFrom(fs1, e)[..t.dirs[e].length] == Entries(fs, t, e))
  }

  lemma DirInRange(fs: Fs, t: Tree, e: nat)
    requires ChainsOk(fs, t) && e in t.dirs
    ensures e < fs.n <= |fs.fat| < 0x7FFF_FFFF
  {
  }

  /** Lookups on a card that is steady find what they found before. */
  lemma {:induction false} ResolveSteady(fs: Fs, t: Tree, fs1: Fs, names: seq<Name>, e: nat, nRecords: nat)
    requires WellFormed(fs, t) && Steady(fs, t, fs1) && names != [] && OnDirs(fs, t, names, e, nRecords)
    ensures Resolve(fs1, names, e, nRecords) == Find(fs, t, names, e, nRecords)
    decreases |names|
  {
    hide IsDir, IsChain, SetRecord, Slots, Pages, RecordsOk, HomeOk, FirstOk, Exists, Length, FirstCluster, Fits, Lookup;
    SteadyLookup(fs, t, fs1, names[0], e, nRecords);
    var rs := Entries(fs, t, e);
    var j := FindName(rs, |rs|, names[0]);
    if Sees(fs, t, e, nRecords) && j < |rs| && |names| > 1 {
      DirInRange(fs, t, FirstCluster(rs[j]));
      ResolveSteady(fs, t, fs1, names[1..], FirstCluster(rs[j]), Length(rs[j]));
    }
  }

  lemma SteadyLookup(fs: Fs, t: Tree, fs1: Fs, name: Name, e: nat, nRecords: nat)
    requires WellFormed(fs, t) && Steady(fs, t, fs1) && e in t.dirs && Given(t, e, nRecords)
    ensures HasChain(fs1, e)
    ensures var rs := Entries(fs, t, e);
            var j := FindName(rs, |rs|, name);
            if Sees(fs, t, e, nRecords) && j < |rs| then Lookup(fs1, e, nRecords, name) == j < |SlotsFrom(fs1, e)| && SlotsFrom(fs1, e)[j] == rs[j]
            else Lookup(fs1, e, nRecords, name) == |SlotsFrom(fs1, e)|
  {
    assert FirstOk(fs, t, e);
    HasFirst(fs, t, e);
    var all, rs := SlotsFrom(fs1, e), Entries(fs, t, e);
    assert rs[0] == all[0];
    var m := Bound(all, nRecords);
    assert m == if Sees(fs, t, e, nRecords) then |rs| else 0;
    FindNamePrefix(all, m, name);
    assert all[..|rs|] == rs;
  }
}
