/** Rewriting one record in place (mctools.c, UpdateDirEntInformation). */
module RecordUpdate {
  import opened Arithmetic
  import opened Bytes
  import opened BlockIO
  import opened PageCaching
  import opened ClusterIO
  import opened FatTable
  import opened Chains
  import opened Dirents
  import opened Directory
  import opened DirectoryScan

  /** A page whose record is replaced; the rest of the page stays. */
  function WithRecord(page: Page, d: Dirent): (p: Page)
    requires DIRENT_SIZE <= |page|
    ensures |p| == |page| && RecordOf(p) == d
  {
    d + page[DIRENT_SIZE..]
  }

  /** The card after the record on page `k` of data cluster `c` is replaced. */
  ghost function SetRecord(fs: Fs, c: nat, k: nat, d: Dirent): (r: Fs)
    requires FsOk(fs) && c < fs.n && k < fs.ppc
    ensures FsOk(r) && r.fat == fs.fat && r.ppc == fs.ppc && r.n == fs.n
  {
    ItemFits(c, fs.n, fs.ppc);
    var p := Times(c, fs.ppc) + k;
    fs.(data := fs.data[p := WithRecord(fs.data[p], d)])
  }

  lemma PatchRecord(ps: seq<Page>, pageLen: nat, k: nat, d: Dirent)
    requires AllLen(ps, pageLen) && k < |ps| && DIRENT_SIZE <= pageLen
    ensures Times(k, pageLen) + DIRENT_SIZE <= |Flat(ps)|
    ensures Patch(Flat(ps), Times(k, pageLen), d) == Flat(ps[k := WithRecord(ps[k], d)])
  {
    hide Flat, Patch;
    FlatPage(ps, pageLen, k);
    ItemFits(k, |ps|, pageLen);
    var p := WithRecord(ps[k], d);
    FlatSetPage(ps, pageLen, k, p);
    var b := Flat(ps);
    assert PageOf(b, pageLen, k) == ps[k];
    assert Patch(b, Times(k, pageLen), d) == SetPage(b, pageLen, k, p);
  }

  /** Rewriting a data cluster with one record replaced is SetRecord on the view. */
  lemma RecordWritten(before: seq<Page>, after: seq<Page>, sb: Superblock, c: nat, k: nat, d: Dirent)
    requires Layout(before, sb) && DIRENT_SIZE <= sb.pageLen && FsOk(View(before, sb))
    requires c < sb.clusters - sb.allocStart && k < sb.pagesPerCluster
    requires Times(k, sb.pageLen) + DIRENT_SIZE <= |ClusterOf(before, sb, sb.allocStart + c)|
    requires OneClusterWritten(before, after, sb, sb.allocStart + c, Patch(ClusterOf(before, sb, sb.allocStart + c), Times(k, sb.pageLen), d))
    ensures Layout(after, sb)
    ensures View(after, sb) == SetRecord(View(before, sb), c, k, d)
  {
    FatUntouched(before, after, sb, sb.allocStart + c, Patch(ClusterOf(before, sb, sb.allocStart + c), Times(k, sb.pageLen), d));
    ItemLe(sb.allocStart, sb.clusters, sb.pagesPerCluster);
    DataWritten(before, after, sb, c, k, d, Times(c, sb.pagesPerCluster) + k);
  }

  lemma DataWritten(before: seq<Page>, after: seq<Page>, sb: Superblock, c: nat, k: nat, d: Dirent, at: nat)
    requires Geometry(before, sb) && DIRENT_SIZE <= sb.pageLen && AllLen(Data(before, sb), sb.pageLen)
    requires c < sb.clusters - sb.allocStart && k < sb.pagesPerCluster && at == Times(c, sb.pagesPerCluster) + k
    requires Times(k, sb.pageLen) + DIRENT_SIZE <= |ClusterOf(before, sb, sb.allocStart + c)|
    requires OneClusterWritten(before, after, sb, sb.allocStart + c, Patch(ClusterOf(before, sb, sb.allocStart + c), Times(k, sb.pageLen), d))
    ensures at < |Data(before, sb)|
    ensures Data(after, sb) == Data(before, sb)[at := WithRecord(Data(before, sb)[at], d)]
  {
    hide Patch, ClusterOf, Times;
    var ppc, abs := sb.pagesPerCluster, sb.allocStart + c;
    ItemFits(abs, sb.clusters, ppc);
    GroupWritten(before, after, sb, abs, k, d);
    Distribute(sb.allocStart, c, ppc);
    PagesAfter(before, after, Times(sb.allocStart, ppc), Times(abs, ppc), ppc, k, d);
  }

  lemma GroupWritten(before: seq<Page>, after: seq<Page>, sb: Superblock, abs: nat, k: nat, d: Dirent)
    requires Geometry(before, sb) && DIRENT_SIZE <= sb.pageLen && abs < sb.clusters && k < sb.pagesPerCluster
    requires Times(k, sb.pageLen) + DIRENT_SIZE <= |ClusterOf(before, sb, abs)|
    requires OneClusterWritten(before, after, sb, abs, Patch(ClusterOf(before, sb, abs), Times(k, sb.pageLen), d))
    requires Times(abs, sb.pagesPerCluster) + sb.pagesPerCluster <= |before|
    ensures Group(after, sb.pagesPerCluster, abs) ==
            Group(before, sb.pagesPerCluster, abs)[k := WithRecord(before[Times(abs, sb.pagesPerCluster) + k], d)]
  {
    var g := Group(before, sb.pagesPerCluster, abs);
    PatchRecord(g, sb.pageLen, k, d);
    FlatInjective(Group(after, sb.pagesPerCluster, abs), g[k := WithRecord(g[k], d)], sb.pageLen);
  }

  /** The same as seen in the pages from `start` on, of which the rewritten cluster begins at `first`. */
  lemma PagesAfter(before: seq<Page>, after: seq<Page>, start: nat, first: nat, ppc: nat, k: nat, d: Dirent)
    requires |after| == |before| && start <= first && first + ppc <= |before| && k < ppc && DIRENT_SIZE <= |before[first + k]|
    requires after[first..first + ppc] == before[first..first + ppc][k := WithRecord(before[first + k], d)]
    requires forall p :: 0 <= p < |before| && !(first <= p < first + ppc) ==> after[p] == before[p]
    ensures after[start..] == before[start..][first - start + k := WithRecord(before[first + k], d)]
  {
    forall p | start <= p < |before|
      ensures after[p] == if p == first + k then WithRecord(before[first + k], d) else before[p]
    {
      if first <= p < first + ppc {
        assert after[first..first + ppc][p - first] == after[p] && before[first..first + ppc][p - first] == before[p];
      }
    }
  }

  /** No entry of the FAT is kept in a data cluster. */
  lemma FatUntouched(before: seq<Page>, after: seq<Page>, sb: Superblock, c: nat, buffer: seq<byte>)
    requires Layout(before, sb) && sb.allocStart <= c < sb.clusters
    requires OneClusterWritten(before, after, sb, c, buffer)
    ensures Layout(after, sb) && Fat(after, sb) == Fat(before, sb)
  {
    forall q: nat | FatIndex(sb, q)
      ensures FatCluster(after, sb, q) == FatCluster(before, sb, q)
    {
      FatClusterStays(before, after, sb, c, buffer, q);
    }
    SameFatClusters(before, after, sb);
    forall i | 0 <= i < sb.clusters
      ensures FatEntry(after, sb, i) == FatEntry(before, sb, i)
    {
      FatEntryUntouched(before, after, sb, c, buffer, i);
    }
  }

  lemma FatEntryUntouched(before: seq<Page>, after: seq<Page>, sb: Superblock, c: nat, buffer: seq<byte>, i: nat)
    requires Layout(before, sb) && Layout(after, sb) && sb.allocStart <= c < sb.clusters && i < sb.clusters
    requires OneClusterWritten(before, after, sb, c, buffer)
    requires forall q: nat :: FatIndex(sb, q) ==> FatCluster(after, sb, q) == FatCluster(before, sb, q)
    ensures FatEntry(after, sb, i) == FatEntry(before, sb, i)
  {
    FatIndexOf(sb, i);
    var e := FatCluster(before, sb, Quot(i, sb.Entries()));
    assert ClusterOf(after, sb, e) == ClusterOf(before, sb, e);
  }

  method UpdateDirEntInformation(cache: PageCache, sb: Superblock, targetCluster: nat, targetOffsetWithinCluster: nat, d: Dirent, ghost k: nat)
    requires Readable(cache, sb) && FsOk(View(cache.store, sb))
    requires sb.allocStart <= targetCluster < sb.clusters
    requires k < sb.pagesPerCluster && targetOffsetWithinCluster == Times(k, sb.pageLen)
    modifies cache, cache.slots, cache.card
    ensures Readable(cache, sb)
    ensures View(cache.store, sb) == SetRecord(View(old(cache.store), sb), targetCluster - sb.allocStart, k, d)
  {
    hide Represents, ClusterOf, FatCluster, FatEntry;
    var buffer := ReadMounted(cache, sb, targetCluster);
    ItemFits(k, sb.pagesPerCluster, sb.pageLen);
    ghost var was := cache.store;
    ghost var c := targetCluster - sb.allocStart;
    assert targetCluster == sb.allocStart + c;
    buffer := Patch(buffer, targetOffsetWithinCluster, d);
    WriteMounted(cache, sb, targetCluster, buffer);
    RecordWritten(was, cache.store, sb, c, k, d);
  }
}
