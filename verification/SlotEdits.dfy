/** What rewriting one record, or growing one chain, does to the slots of every directory. */
module SlotEdits {
  import opened Arithmetic
  import opened Bytes
  import opened Counting
  import opened Chains
  import opened Dirents
  import opened Directory
  import opened DirectoryScan
  import opened RecordUpdate

  /** The page of cluster `c` after a record is replaced on page `k` of cluster `at`. */
  lemma SetRecordPage(fs: Fs, at: nat, k: nat, d: Dirent, c: nat, i: nat)
    requires FsOk(fs) && at < fs.n && k < fs.ppc && c < fs.n && i < fs.ppc
    ensures ClusterPages(SetRecord(fs, at, k, d), c)[i] ==
            if c == at && i == k then WithRecord(ClusterPages(fs, c)[i], d) else ClusterPages(fs, c)[i]
  {
    if c < at {
      ItemFits(c, at, fs.ppc);
    } else if at < c {
      ItemFits(at, c, fs.ppc);
    }
  }

  lemma SlotIsRecord(fs: Fs, cs: seq<nat>, j: nat, i: nat, k: nat)
    requires IsDir(fs, cs) && i < |cs| && k < fs.ppc && InCluster(j, i, fs.ppc, k)
    ensures j < |Slots(fs, cs)| && Slots(fs, cs)[j] == RecordOf(ClusterPages(fs, cs[i])[k])
  {
    SlotAt(fs, cs, j, i, k);
  }

  /** Every slot is some page of some cluster of the directory. */
  lemma SlotSomewhere(fs: Fs, cs: seq<nat>, j: nat) returns (i: nat, k: nat)
    requires IsDir(fs, cs) && j < |Slots(fs, cs)|
    ensures i < |cs| && k < fs.ppc && InCluster(j, i, fs.ppc, k)
  {
    i, k := Quot(j, fs.ppc), Rem(j, fs.ppc);
    QuotRem(j, fs.ppc);
    if |cs| <= i {
      ItemLe(|cs|, i, fs.ppc);
    }
  }

  lemma SameCell(i: nat, k: nat, i': nat, k': nat, j: nat, ppc: nat)
    requires k < ppc && k' < ppc && InCluster(j, i, ppc, k) && InCluster(j, i', ppc, k')
    ensures i == i' && k == k'
  {
    QuotUnique(j, ppc, i, k);
    QuotUnique(j, ppc, i', k');
  }

  /** Replacing the record of slot `j` of a directory replaces just that slot. */
  lemma SetRecordSlots(fs: Fs, cs: seq<nat>, j: nat, c: nat, k: nat, d: Dirent)
    requires IsDir(fs, cs) && Located(fs, cs, j, c, k)
    ensures c < fs.n && k < fs.ppc && j < |Slots(fs, cs)|
    ensures IsDir(SetRecord(fs, c, k, d), cs)
    ensures Slots(SetRecord(fs, c, k, d), cs) == Slots(fs, cs)[j := d]
  {
    hide Slots, SetRecord, Pages;
    var i :| 0 <= i < |cs| && cs[i] == c && InCluster(j, i, fs.ppc, k);
    SlotIsRecord(fs, cs, j, i, k);
    ChainNoDup(fs.fat, fs.n, cs);
    var fs' := SetRecord(fs, c, k, d);
    forall x | 0 <= x < |Slots(fs, cs)|
      ensures Slots(fs', cs)[x] == if x == j then d else Slots(fs, cs)[x]
    {
      var y, z := SlotSomewhere(fs, cs, x);
      SlotIsRecord(fs, cs, x, y, z);
      SlotIsRecord(fs', cs, x, y, z);
      SetRecordPage(fs, c, k, d, cs[y], z);
      if x == j {
        SameCell(i, k, y, z, j, fs.ppc);
      } else {
        assert !(y == i && z == k);
      }
    }
  }

  /** Replacing a record leaves the slots of every directory alone that does not own its cluster. */
  lemma SetRecordElsewhere(fs: Fs, cs: seq<nat>, c: nat, k: nat, d: Dirent)
    requires IsDir(fs, cs) && c < fs.n && k < fs.ppc && c !in cs
    ensures IsDir(SetRecord(fs, c, k, d), cs)
    ensures Pages(SetRecord(fs, c, k, d), cs) == Pages(fs, cs)
    ensures Slots(SetRecord(fs, c, k, d), cs) == Slots(fs, cs)
  {
    PagesElsewhere(fs, cs, c, k, d);
  }

  lemma {:induction false} PagesElsewhere(fs: Fs, cs: seq<nat>, c: nat, k: nat, d: Dirent)
    requires FsOk(fs) && (forall i :: 0 <= i < |cs| ==> cs[i] < fs.n) && c < fs.n && k < fs.ppc && c !in cs
    ensures Pages(SetRecord(fs, c, k, d), cs) == Pages(fs, cs)
  {
    if cs != [] {
      var last := |cs| - 1;
      PagesElsewhere(fs, cs[..last], c, k, d);
      forall x | 0 <= x < fs.ppc
        ensures ClusterPages(SetRecord(fs, c, k, d), cs[last])[x] == ClusterPages(fs, cs[last])[x]
      {
        SetRecordPage(fs, c, k, d, cs[last], x);
      }
    }
  }

  /** Only the FAT changes when a chain grows; the clusters it had keep their pages. */
  lemma {:induction false} PagesOtherFat(fs: Fs, fat: seq<u32>, cs: seq<nat>)
    requires FsOk(fs) && |fat| == |fs.fat| && (forall i :: 0 <= i < |cs| ==> cs[i] < fs.n)
    ensures FsOk(fs.(fat := fat))
    ensures Pages(fs.(fat := fat), cs) == Pages(fs, cs)
  {
    if cs != [] {
      PagesOtherFat(fs, fat, cs[..|cs| - 1]);
    }
  }

  /** A directory grown by cluster `c` has its old slots, and then those of the new cluster. */
  lemma GrownSlots(fs: Fs, fat: seq<u32>, cs: seq<nat>, c: nat)
    requires IsDir(fs, cs) && |fat| == |fs.fat| && c < fs.n
    requires IsChain(fat, fs.n, cs + [c])
    ensures FsOk(fs.(fat := fat))
    ensures |Slots(fs.(fat := fat), cs + [c])| == |Slots(fs, cs)| + fs.ppc
    ensures Slots(fs.(fat := fat), cs + [c])[..|Slots(fs, cs)|] == Slots(fs, cs)
    ensures Located(fs.(fat := fat), cs + [c], |Slots(fs, cs)|, c, 0)
  {
    var g := fs.(fat := fat);
    PagesOtherFat(fs, fat, cs);
    assert (cs + [c])[..|cs|] == cs;
    assert Pages(g, cs + [c]) == Pages(g, cs) + ClusterPages(g, c);
    assert InCluster(|Slots(fs, cs)|, |cs|, fs.ppc, 0);
    assert (cs + [c])[|cs|] == c;
  }
}
