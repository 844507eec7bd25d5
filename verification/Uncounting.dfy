/** A record that is on the card but that no length counts: between the two writes that add one, or for good. */
module Uncounting {
  import opened Arithmetic
  import opened Bytes
  import opened Chains
  import opened Dirents
  import opened Directory
  import opened DirectoryScan
  import opened RecordUpdate
  import opened Paths
  import opened Resolution
  import opened SlotEdits
  import opened DirectoryTree
  import opened Placement
  import opened Growth
  import opened Appending

  /** Every directory still starts with its records, whatever there is behind them; no file has changed. */
  ghost predicate Beyond(fs: Fs, t: Tree, fs1: Fs, t1: Tree) {
    && WellFormed(fs, t) && FsOk(fs1) && fs1.ppc == fs.ppc && fs1.n == fs.n && |fs1.fat| == |fs.fat|
    && t1.files == t.files && t1.dirs.Keys == t.dirs.Keys && ChainsOk(fs1, t1)
    && (forall x {:trigger DirSlots(fs1, t1, x)} :: x in t.dirs ==>
          t.dirs[x].length <= |DirSlots(fs1, t1, x)| && DirSlots(fs1, t1, x)[..t.dirs[x].length] == Entries(fs, t, x))
    && (forall f :: f in t.files ==> Pages(fs1, t.files[f]) == Pages(fs, t.files[f]))
  }

  lemma EntriesAreFirst(fs: Fs, t: Tree, x: nat)
    requires WellFormed(fs, t) && x in t.dirs
    ensures t.dirs[x].length <= |DirSlots(fs, t, x)| && DirSlots(fs, t, x)[..t.dirs[x].length] == Entries(fs, t, x)
  {
    assert Fits(t.dirs[x], fs.ppc);
  }

  lemma BeyondInSlack(fs: Fs, t: Tree, e: nat, c: nat, k: nat, d: Dirent)
    requires WellFormed(fs, t) && e in t.dirs && PlaceIn(fs, t, e).Slack?
    requires Located(fs, t.dirs[e].clusters, t.dirs[e].length, c, k)
    ensures c < fs.n && k < fs.ppc
    ensures var fs1 := SetRecord(fs, c, k, d);
            Beyond(fs, t, fs1, t) && t.dirs[e].length < |DirSlots(fs1, t, e)| && DirSlots(fs1, t, e)[t.dirs[e].length] == d
  {
    hide ChainsOk, LengthsOk, SetRecord, Slots, Pages, RecordsOk, HomeOk, FirstOk, FindPlace, Exists, Length, FirstCluster;
    EditSlot(fs, t, e, t.dirs[e].length, c, k, d);
    var fs1 := SetRecord(fs, c, k, d);
    forall x | x in t.dirs
      ensures t.dirs[x].length <= |DirSlots(fs1, t, x)| && DirSlots(fs1, t, x)[..t.dirs[x].length] == Entries(fs, t, x)
    {
      EntriesAreFirst(fs, t, x);
    }
  }

  /** Directory `e` has a cluster more, but no more records. */
  function Widened(t: Tree, e: nat, c: nat): Tree
    requires e in t.dirs
  {
    t.(dirs := t.dirs[e := t.dirs[e].(clusters := t.dirs[e].clusters + [c])])
  }

  lemma BeyondWidened(fs: Fs, t: Tree, e: nat, c: nat, d: Dirent, hooked: Fs)
    requires WellFormed(fs, t) && e in t.dirs && Hooked(fs, t, e, c, hooked, Grown(t, e, [c]))
    ensures c < fs.n && FsOk(hooked)
    ensures var fs1, t1, at := SetRecord(hooked, c, 0, d), Widened(t, e, c), |DirSlots(fs, t, e)|;
            && Beyond(fs, t, fs1, t1)
            && t.dirs[e].length <= at < |DirSlots(fs1, t1, e)| && DirSlots(fs1, t1, e)[at] == d
  {
    hide SetRecord, Slots, Pages, RecordsOk, HomeOk, FirstOk, LengthsOk, Entries, Heads, Free, WellFormed;
    var g, t1 := Grown(t, e, [c]), Widened(t, e, c);
    BeyondInNewCluster(fs, t, e, c, d, hooked, g);
    var fs1 := SetRecord(hooked, c, 0, d);
    assert forall x :: x in t.dirs ==> t1.dirs[x].clusters == g.dirs[x].clusters;
    assert ChainsOk(fs1, t1) by { SameClusters(fs1, g, t1); }
    assert forall x :: x in t.dirs ==> DirSlots(fs1, t1, x) == DirSlots(fs1, g, x);
  }

  lemma SameClusters(fs: Fs, t: Tree, t1: Tree)
    requires ChainsOk(fs, t) && t1.files == t.files && t1.dirs.Keys == t.dirs.Keys
    requires forall x :: x in t.dirs ==> t1.dirs[x].clusters == t.dirs[x].clusters
    ensures ChainsOk(fs, t1)
  {
    hide Heads, Free;
    forall x, y | x in t1.dirs && y in t1.dirs && x != y
      ensures Disjoint(t1.dirs[x].clusters, t1.dirs[y].clusters)
    {
      assert Disjoint(t.dirs[x].clusters, t.dirs[y].clusters);
    }
    forall x, f | x in t1.dirs && f in t1.files
      ensures Disjoint(t1.dirs[x].clusters, t1.files[f])
    {
      assert Disjoint(t.dirs[x].clusters, t.files[f]);
    }
  }

  /** A cluster is hooked to the directory, whether or not there are slots left in the others. */
  lemma BeyondInNewCluster(fs: Fs, t: Tree, e: nat, c: nat, d: Dirent, hooked: Fs, t1: Tree)
    requires WellFormed(fs, t) && e in t.dirs && Hooked(fs, t, e, c, hooked, t1)
    ensures c < fs.n && FsOk(hooked)
    ensures var fs1, at := SetRecord(hooked, c, 0, d), |DirSlots(fs, t, e)|;
            && Beyond(fs, t, fs1, t1)
            && t.dirs[e].length <= at < |DirSlots(fs1, t1, e)| && DirSlots(fs1, t1, e)[at] == d
  {
    hide ChainsOk, SetRecord, Slots, Pages, RecordsOk, HomeOk, FirstOk, FindPlace, Exists, Length, FirstCluster, IsChain, LengthsOk, Entries;
    HookChains(fs, t, e, c, hooked, t1);
    HookSelf(fs, t, e, c, hooked, t1);
    var at, fs1 := |DirSlots(fs, t, e)|, SetRecord(hooked, c, 0, d);
    EditSlot(hooked, t1, e, at, c, 0, d);
    HookedFiles(fs, t, e, c, hooked, t1, fs1);
    HookedLength(fs, t, e, c, hooked, t1);
    EntriesAreFirst(fs, t, e);
    forall x | x in t.dirs
      ensures t.dirs[x].length <= |DirSlots(fs1, t1, x)| && DirSlots(fs1, t1, x)[..t.dirs[x].length] == Entries(fs, t, x)
    {
      HookedSlots(fs, t, e, c, hooked, t1, x);
      FrontStays(DirSlots(fs, t, x), DirSlots(hooked, t1, x), at, d, t.dirs[x].length);
    }
  }

  lemma HookedLength(fs: Fs, t: Tree, e: nat, c: nat, hooked: Fs, t1: Tree)
    requires Hooked(fs, t, e, c, hooked, t1)
    ensures |hooked.fat| == |fs.fat| && hooked.ppc == fs.ppc && hooked.n == fs.n
  {
    assert Heads(fs, e, t.dirs[e].clusters);
  }

  lemma FrontStays<T>(s: seq<T>, s': seq<T>, at: nat, d: T, n: nat)
    requires s <= s' && n <= |s|
    ensures s'[..n] == s[..n]
    ensures n <= at < |s'| ==> s'[at := d][..n] == s[..n]
  {
  }

  lemma HookedSlots(fs: Fs, t: Tree, e: nat, c: nat, hooked: Fs, t1: Tree, x: nat)
    requires WellFormed(fs, t) && e in t.dirs && Hooked(fs, t, e, c, hooked, t1) && x in t.dirs
    requires FsOk(hooked) && ChainsOk(hooked, t1)
    ensures DirSlots(fs, t, x) <= DirSlots(hooked, t1, x)
    ensures t.dirs[x].length <= |DirSlots(fs, t, x)| && DirSlots(fs, t, x)[..t.dirs[x].length] == Entries(fs, t, x)
  {
    EntriesAreFirst(fs, t, x);
    if x == e {
      HookSelf(fs, t, e, c, hooked, t1);
    } else {
      assert Disjoint(t.dirs[e].clusters, t.dirs[x].clusters);
      HookOther(fs, t, e, c, hooked, t1, t.dirs[x].clusters);
    }
  }

  lemma BeyondChain(fs: Fs, t: Tree, fs1: Fs, t1: Tree, x: nat)
    requires Beyond(fs, t, fs1, t1) && x in t.dirs
    ensures HasChain(fs1, x) && ChainOf(fs1, x) == t1.dirs[x].clusters && SlotsFrom(fs1, x) == DirSlots(fs1, t1, x)
  {
    hide Pages, RecordsOk, HomeOk, FirstOk, IsChain, Slots;
    assert Heads(fs1, x, t1.dirs[x].clusters);
    ChainOfIs(fs1, x, t1.dirs[x].clusters);
  }

  /** So every path still resolves as it did. */
  lemma BeyondSteady(fs: Fs, t: Tree, fs1: Fs, t1: Tree)
    requires Beyond(fs, t, fs1, t1)
    ensures Steady(fs, t, fs1) && RootSelf(fs1)
  {
    hide SlotsFrom, Entries, Slots, RecordsOk, FirstOk, HomeOk, Exists, FirstCluster, Length, Pages, ClusterPages, ChainsOk, LengthsOk;
    forall x | x in t.dirs
      ensures HasChain(fs1, x) && t.dirs[x].length <= |SlotsFrom(fs1, x)|
      ensures SlotsFrom(fs1, x)[..t.dirs[x].length] == Entries(fs, t, x)
    {
      BeyondChain(fs, t, fs1, t1, x);
    }
    forall k | 0 <= k < fs.ppc
      ensures 0 < fs1.n && FirstCluster(RecordOf(ClusterPages(fs1, 0)[k])) == 0
    {
      BeyondRoot(fs, t, fs1, t1, k);
    }
  }

  lemma BeyondRoot(fs: Fs, t: Tree, fs1: Fs, t1: Tree, k: nat)
    requires Beyond(fs, t, fs1, t1) && k < fs.ppc
    ensures 0 < fs1.n && FirstCluster(RecordOf(ClusterPages(fs1, 0)[k])) == 0
  {
    BeyondChain(fs, t, fs1, t1, 0);
    assert Entries(fs, t, 0)[k] == DirSlots(fs1, t1, 0)[k];
    assert InCluster(k, 0, fs.ppc, k);
    SlotAt(fs1, t1.dirs[0].clusters, k, 0, k);
  }

  /** The same, with record `s` of directory `q` replaced. */
  ghost predicate Edited(fs: Fs, t: Tree, fs': Fs, t': Tree, q: nat, s: nat, r: Dirent) {
    && WellFormed(fs, t) && q in t.dirs && s < t.dirs[q].length
    && FsOk(fs') && fs'.ppc == fs.ppc && fs'.n == fs.n && |fs'.fat| == |fs.fat|
    && t'.files == t.files && t'.dirs.Keys == t.dirs.Keys && ChainsOk(fs', t')
    && (forall x {:trigger DirSlots(fs', t', x)} :: x in t.dirs ==>
          t.dirs[x].length <= |DirSlots(fs', t', x)| &&
          DirSlots(fs', t', x)[..t.dirs[x].length] == if x == q then Entries(fs, t, q)[s := r] else Entries(fs, t, x))
    && (forall f :: f in t.files ==> Pages(fs', t.files[f]) == Pages(fs, t.files[f]))
  }

  lemma BeyondEdited(fs: Fs, t: Tree, fs1: Fs, t1: Tree, q: nat, s: nat, c: nat, k: nat, r: Dirent)
    requires Beyond(fs, t, fs1, t1) && q in t.dirs && s < t.dirs[q].length && Located(fs1, t1.dirs[q].clusters, s, c, k)
    ensures c < fs1.n && k < fs1.ppc && Edited(fs, t, SetRecord(fs1, c, k, r), t1, q, s, r)
    ensures var fs2 := SetRecord(fs1, c, k, r);
            forall x, i :: x in t.dirs && t.dirs[x].length <= i < |DirSlots(fs1, t1, x)| ==>
              i < |DirSlots(fs2, t1, x)| && DirSlots(fs2, t1, x)[i] == DirSlots(fs1, t1, x)[i]
  {
    hide ChainsOk, SetRecord, Slots, Pages, RecordsOk, HomeOk, FirstOk, FindPlace, Exists, Length, FirstCluster, LengthsOk, Entries, WellFormed;
    EditSlot(fs1, t1, q, s, c, k, r);
    TakeUpdate(DirSlots(fs1, t1, q), s, r, t.dirs[q].length);
  }
}
