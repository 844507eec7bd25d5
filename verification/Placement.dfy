/** Adding a record to a directory: where it goes, and that the card stays well-formed. */
module Placement {
  import opened Arithmetic
  import opened Bytes
  import opened Counting
  import opened Chains
  import opened Dirents
  import opened Directory
  import opened DirectoryScan
  import opened RecordUpdate
  import opened Resolution
  import opened SlotEdits
  import opened DirectoryTree

  /** Every file still has the pages it had. */
  ghost predicate FilesKept(fs: Fs, fs': Fs, t: Tree)
    requires ChainsOk(fs, t) && ChainsOk(fs', t)
  {
    forall f :: f in t.files ==> Pages(fs', t.files[f]) == Pages(fs, t.files[f])
  }

  ghost function DirSlots(fs: Fs, t: Tree, e: nat): seq<Dirent>
    requires ChainsOk(fs, t) && e in t.dirs
  {
    Slots(fs, t.dirs[e].clusters)
  }

  /** Rewriting one slot of one directory changes no other slot, no chain and no file. */
  lemma EditSlot(fs: Fs, t: Tree, e: nat, x: nat, c: nat, k: nat, d: Dirent)
    requires FsOk(fs) && ChainsOk(fs, t) && e in t.dirs && Located(fs, t.dirs[e].clusters, x, c, k)
    ensures c < fs.n && k < fs.ppc && x < |DirSlots(fs, t, e)|
    ensures var fs' := SetRecord(fs, c, k, d);
            && ChainsOk(fs', t) && FilesKept(fs, fs', t)
            && forall e' :: e' in t.dirs ==> DirSlots(fs', t, e') == if e' == e then DirSlots(fs, t, e)[x := d] else DirSlots(fs, t, e')
  {
    hide Pages, SetRecord;
    SetRecordSlots(fs, t.dirs[e].clusters, x, c, k, d);
    var fs' := SetRecord(fs, c, k, d);
    var i :| 0 <= i < |t.dirs[e].clusters| && t.dirs[e].clusters[i] == c;
    forall e' | e' in t.dirs && e' != e
      ensures DirSlots(fs', t, e') == DirSlots(fs, t, e')
    {
      assert Disjoint(t.dirs[e].clusters, t.dirs[e'].clusters);
      SetRecordElsewhere(fs, t.dirs[e'].clusters, c, k, d);
    }
    forall f | f in t.files
      ensures Pages(fs', t.files[f]) == Pages(fs, t.files[f])
    {
      assert Disjoint(t.dirs[e].clusters, t.files[f]);
      SetRecordElsewhere(fs, t.files[f], c, k, d);
    }
  }

  /** Where a directory takes its next record. */
  ghost function PlaceIn(fs: Fs, t: Tree, e: nat): Place
    requires WellFormed(fs, t) && e in t.dirs
  {
    FindPlace(DirSlots(fs, t, e), fs.ppc, t.dirs[e].length)
  }

  /** The first deleted record; else the slack right behind the last record; else, only when every slot is taken, nowhere. */
  lemma PlaceIs(fs: Fs, t: Tree, e: nat)
    requires WellFormed(fs, t) && e in t.dirs
    ensures match PlaceIn(fs, t, e)
            case Deleted(j) => j < t.dirs[e].length && !Exists(Entries(fs, t, e)[j]) && forall k :: 0 <= k < j ==> Exists(Entries(fs, t, e)[k])
            case Slack(j) => j == t.dirs[e].length < |DirSlots(fs, t, e)| && forall k :: 0 <= k < j ==> Exists(Entries(fs, t, e)[k])
            case NoPlace => t.dirs[e].length == |DirSlots(fs, t, e)| && forall k :: 0 <= k < t.dirs[e].length ==> Exists(Entries(fs, t, e)[k])
  {
    hide Pages, IsChain;
    var info := t.dirs[e];
    assert Fits(info, fs.ppc);
    var rs := DirSlots(fs, t, e);
    var m := Bound(rs, info.length);
    assert m == info.length;
    assert forall k :: 0 <= k < m ==> Entries(fs, t, e)[k] == rs[k];
    if m < |rs| {
      QuotUnique(m, fs.ppc, |info.clusters| - 1, m - Times(|info.clusters| - 1, fs.ppc));
    }
  }

  /** The directories after directory `e` has grown by one record, and by the clusters `more`. */
  function Grown(t: Tree, e: nat, more: seq<nat>): Tree
    requires e in t.dirs
  {
    t.(dirs := t.dirs[e := t.dirs[e].(clusters := t.dirs[e].clusters + more, length := t.dirs[e].length + 1)])
  }

  /** The card after cluster `c` is hooked behind the chain of directory `e`. */
  ghost predicate Hooked(fs: Fs, t: Tree, e: nat, c: nat, fs': Fs, t': Tree) {
    && FsOk(fs) && ChainsOk(fs, t) && e in t.dirs && c < fs.n && Free(fs.fat[c])
    && fs' == fs.(fat := Appended(fs.fat, t.dirs[e].clusters[|t.dirs[e].clusters| - 1], c))
    && t' == Grown(t, e, [c])
  }

  lemma HookOther(fs: Fs, t: Tree, e: nat, c: nat, fs': Fs, t': Tree, ds: seq<nat>)
    requires Hooked(fs, t, e, c, fs', t') && IsDir(fs, ds) && Disjoint(t.dirs[e].clusters, ds)
    ensures IsDir(fs', ds) && Disjoint(t'.dirs[e].clusters, ds)
    ensures Pages(fs', ds) == Pages(fs, ds) && Slots(fs', ds) == Slots(fs, ds)
  {
    AppendKeepsOthers(fs.fat, fs.n, t.dirs[e].clusters, c, ds);
    PagesOtherFat(fs, fs'.fat, ds);
  }

  lemma HookSelf(fs: Fs, t: Tree, e: nat, c: nat, fs': Fs, t': Tree)
    requires Hooked(fs, t, e, c, fs', t')
    ensures Heads(fs', e, t'.dirs[e].clusters)
    ensures var rs, rs' := Slots(fs, t.dirs[e].clusters), Slots(fs', t'.dirs[e].clusters);
            |rs'| == |rs| + fs.ppc && rs'[..|rs|] == rs && Located(fs', t'.dirs[e].clusters, |rs|, c, 0)
  {
    AppendExtends(fs.fat, fs.n, t.dirs[e].clusters, c);
    GrownSlots(fs, fs'.fat, t.dirs[e].clusters, c);
  }

  /** Hooking a free cluster behind the chain of a directory keeps every chain whole and apart from the others. */
  lemma HookChains(fs: Fs, t: Tree, e: nat, c: nat, fs': Fs, t': Tree)
    requires Hooked(fs, t, e, c, fs', t')
    ensures FsOk(fs') && ChainsOk(fs', t')
  {
    HookSelf(fs, t, e, c, fs', t');
    forall e' | e' in t.dirs && e' != e
      ensures Heads(fs', e', t.dirs[e'].clusters) && Disjoint(t'.dirs[e].clusters, t.dirs[e'].clusters)
    {
      assert Disjoint(t.dirs[e].clusters, t.dirs[e'].clusters);
      HookOther(fs, t, e, c, fs', t', t.dirs[e'].clusters);
    }
    forall f | f in t.files
      ensures Heads(fs', f, t.files[f]) && Disjoint(t'.dirs[e].clusters, t.files[f])
    {
      assert Disjoint(t.dirs[e].clusters, t.files[f]);
      HookOther(fs, t, e, c, fs', t', t.files[f]);
    }
    HookDisjoint(t, e, c, t');
  }

  lemma HookDisjoint(t: Tree, e: nat, c: nat, t': Tree)
    requires e in t.dirs && t' == Grown(t, e, [c])
    requires forall x, y {:trigger Disjoint(t.dirs[x].clusters, t.dirs[y].clusters)} :: x in t.dirs && y in t.dirs && x != y ==> Disjoint(t.dirs[x].clusters, t.dirs[y].clusters)
    requires forall y {:trigger Disjoint(t'.dirs[e].clusters, t.dirs[y].clusters)} :: y in t.dirs && y != e ==> Disjoint(t'.dirs[e].clusters, t.dirs[y].clusters)
    ensures forall x, y {:trigger Disjoint(t'.dirs[x].clusters, t'.dirs[y].clusters)} :: x in t'.dirs && y in t'.dirs && x != y ==> Disjoint(t'.dirs[x].clusters, t'.dirs[y].clusters)
  {
    forall x, y | x in t'.dirs && y in t'.dirs && x != y
      ensures Disjoint(t'.dirs[x].clusters, t'.dirs[y].clusters)
    {
      if x == e {
        assert Disjoint(t'.dirs[e].clusters, t.dirs[y].clusters);
      } else if y == e {
        assert Disjoint(t'.dirs[e].clusters, t.dirs[x].clusters);
      } else {
        assert Disjoint(t.dirs[x].clusters, t.dirs[y].clusters);
      }
    }
  }
}
