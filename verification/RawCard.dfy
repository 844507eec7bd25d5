/** The table and the directories in terms of the card's bytes, with nothing but built-in arithmetic. */
module RawCard {
  import opened Arithmetic
  import opened Bytes
  import opened BlockIO
  import opened ClusterIO
  import opened FatTable
  import opened Chains
  import opened Dirents
  import opened Directory

  /** Byte `o` of cluster `c`. */
  ghost predicate HasByte(store: seq<Page>, sb: Superblock, c: nat, o: nat, v: int) {
    && 0 < sb.pageLen && o < sb.pagesPerCluster * sb.pageLen
    && var page := c * sb.pagesPerCluster + o / sb.pageLen;
       0 <= page < |store| && o % sb.pageLen < |store[page]| && store[page][o % sb.pageLen] == v
  }

  /** Word `k` of cluster `c`, with its low byte first. */
  ghost predicate HasWord(store: seq<Page>, sb: Superblock, c: nat, k: nat, w: nat) {
    && w < 0x1_0000_0000
    && HasByte(store, sb, c, 4 * k, w % 0x100) && HasByte(store, sb, c, 4 * k + 1, w / 0x100 % 0x100)
    && HasByte(store, sb, c, 4 * k + 2, w / 0x1_0000 % 0x100) && HasByte(store, sb, c, 4 * k + 3, w / 0x100_0000)
  }

  lemma ClusterByte(store: seq<Page>, sb: Superblock, c: nat, o: nat, v: int)
    requires Geometry(store, sb) && c < sb.clusters && HasByte(store, sb, c, o, v)
    ensures o < |ClusterOf(store, sb, c)| && ClusterOf(store, sb, c)[o] == v
  {
    hide Flat, ClusterOf, Times, Geometry;
    var ppc, pageLen, k := sb.pagesPerCluster, sb.pageLen, o / sb.pageLen;
    PageInside(o, ppc, pageLen);
    TimesIsProduct(c, ppc);
    TimesIsProduct(k, pageLen);
    ClusterByteAt(store, sb, c, k, o % pageLen);
  }

  lemma ClusterByteAt(store: seq<Page>, sb: Superblock, c: nat, k: nat, r: nat)
    requires Geometry(store, sb) && c < sb.clusters && k < sb.pagesPerCluster && r < sb.pageLen
    ensures Times(c, sb.pagesPerCluster) + k < |store| && |store[Times(c, sb.pagesPerCluster) + k]| == sb.pageLen
    ensures Times(k, sb.pageLen) + r < |ClusterOf(store, sb, c)|
    ensures ClusterOf(store, sb, c)[Times(k, sb.pageLen) + r] == store[Times(c, sb.pagesPerCluster) + k][r]
  {
    hide Flat;
    ItemFits(c, sb.clusters, sb.pagesPerCluster);
    FlatPage(Group(store, sb.pagesPerCluster, c), sb.pageLen, k);
    assert HasPage(ClusterOf(store, sb, c), sb.pageLen, k, store[Times(c, sb.pagesPerCluster) + k]);
    assert PageOf(ClusterOf(store, sb, c), sb.pageLen, k)[r] == store[Times(c, sb.pagesPerCluster) + k][r];
  }

  lemma PageInside(o: nat, n: nat, size: nat)
    requires 0 < size && o < n * size
    ensures o / size < n && o == o / size * size + o % size
  {
    TimesIsProduct(n, size);
    QuotIsDivision(o, size);
    QuotInside(o, n, size);
  }

  lemma {:induction false} QuotInside(o: nat, n: nat, size: nat)
    requires 0 < size && o < Times(n, size)
    ensures Quot(o, size) < n
  {
    if size <= o {
      QuotInside(o - size, n - 1, size);
    }
  }

  lemma ClusterWord(store: seq<Page>, sb: Superblock, c: nat, k: nat, w: nat)
    requires Geometry(store, sb) && c < sb.clusters && HasWord(store, sb, c, k, w)
    ensures 4 * k + 4 <= |ClusterOf(store, sb, c)| && Word(ClusterOf(store, sb, c), k) == w
  {
    hide U32, Geometry, HasByte, ClusterOf;
    ClusterByte(store, sb, c, 4 * k, w % 0x100);
    ClusterByte(store, sb, c, 4 * k + 1, w / 0x100 % 0x100);
    ClusterByte(store, sb, c, 4 * k + 2, w / 0x1_0000 % 0x100);
    ClusterByte(store, sb, c, 4 * k + 3, w / 0x100_0000);
    var b := ClusterOf(store, sb, c);
    WordOfBytes(b, 4 * k, w);
  }

  lemma WordOfBytes(b: seq<byte>, o: nat, w: nat)
    requires o + 4 <= |b| && w < 0x1_0000_0000
    requires b[o] == w % 0x100 && b[o + 1] == w / 0x100 % 0x100 && b[o + 2] == w / 0x1_0000 % 0x100 && b[o + 3] == w / 0x100_0000
    ensures U32(b, o) == w
  {
    hide U32;
    WordsAnywhere(b, o);
    LowByteFirst(b[o], b[o + 1], b[o + 2], b[o + 3]);
    assert b[o..o + 4] == [b[o], b[o + 1], b[o + 2], b[o + 3]];
    assert w / 0x100 == w / 0x1_0000 * 0x100 + w / 0x100 % 0x100 && w / 0x1_0000 == w / 0x100_0000 * 0x100 + w / 0x1_0000 % 0x100;
  }

  /** How many words a cluster holds. */
  function Words(sb: Superblock): nat {
    sb.pagesPerCluster * sb.pageLen / 4
  }

  /**
   * The card's bytes hold a table: word `q % n` of the `q / n`-th listed cluster is the number of the table's `q`-th cluster,
   * and word `i % n` of the table's `i / n`-th cluster is entry `i`, where `n` words make a cluster.
   */
  ghost predicate HoldsTable(store: seq<Page>, sb: Superblock, tables: seq<nat>, fat: seq<nat>) {
    var n := Words(sb);
    && 0 < n && 0 < sb.clusters == |fat| && |tables| == (sb.clusters + n - 1) / n
    && (forall q :: 0 <= q < |tables| ==> 0 < tables[q] < sb.allocStart)
    && (forall q, r :: 0 <= q < r < |tables| ==> tables[q] != tables[r])
    && (forall q, r :: 0 <= q < |tables| && 0 <= r < |sb.ifcList| ==> tables[q] != sb.ifcList[r])
    && (forall q :: 0 <= q < |tables| ==> HasEntry(store, sb, sb.ifcList, q, tables[q]))
    && (forall i :: 0 <= i < |fat| ==> HasEntry(store, sb, tables, i, fat[i]))
  }

  /** Word `k` of the clusters in the list, one after the other. */
  ghost predicate HasEntry(store: seq<Page>, sb: Superblock, clusters: seq<nat>, k: nat, w: nat) {
    0 < Words(sb) && k / Words(sb) < |clusters| && HasWord(store, sb, clusters[k / Words(sb)], k % Words(sb), w)
  }

  lemma WordsAreEntries(sb: Superblock)
    ensures Words(sb) == sb.Entries()
    ensures 0 < Words(sb) ==> sb.FatClusters() == (sb.clusters + Words(sb) - 1) / Words(sb)
  {
    TimesIsProduct(sb.pagesPerCluster, sb.pageLen);
    if 0 < Words(sb) {
      QuotIsDivision(sb.clusters + Words(sb) - 1, Words(sb));
    }
  }

  lemma TableCluster(store: seq<Page>, sb: Superblock, tables: seq<nat>, fat: seq<nat>, q: nat)
    requires Geometry(store, sb) && HoldsTable(store, sb, tables, fat) && q < |tables|
    ensures FatIndex(sb, q) && FatCluster(store, sb, q) == tables[q]
    ensures exists r :: 0 <= r < |sb.ifcList| && sb.ifcList[r] == IndirectCluster(sb, q)
  {
    hide HasWord, ClusterOf;
    WordsAreEntries(sb);
    QuotIsDivision(q, sb.Entries());
    assert FatIndex(sb, q);
    assert IndirectCluster(sb, q) == sb.ifcList[q / Words(sb)];
    ClusterWord(store, sb, sb.ifcList[q / Words(sb)], q % Words(sb), tables[q]);
  }

  /** A card whose bytes hold a table has just that table. */
  lemma TableIsRead(store: seq<Page>, sb: Superblock, tables: seq<nat>, fat: seq<nat>)
    requires Geometry(store, sb) && HoldsTable(store, sb, tables, fat)
    ensures Layout(store, sb) && Fat(store, sb) == fat
  {
    hide HasWord, ClusterOf, FatCluster, IndirectCluster;
    WordsAreEntries(sb);
    forall q: nat | FatIndex(sb, q)
      ensures q < |tables| && FatCluster(store, sb, q) == tables[q]
      ensures exists r :: 0 <= r < |sb.ifcList| && sb.ifcList[r] == IndirectCluster(sb, q)
    {
      TableCluster(store, sb, tables, fat, q);
    }
    forall i: nat | i < sb.clusters
      ensures FatEntry(store, sb, i) == fat[i]
    {
      TableEntry(store, sb, tables, fat, i);
    }
  }

  lemma TableEntry(store: seq<Page>, sb: Superblock, tables: seq<nat>, fat: seq<nat>, i: nat)
    requires Layout(store, sb) && HoldsTable(store, sb, tables, fat) && i < sb.clusters
    ensures FatEntry(store, sb, i) == fat[i]
  {
    hide HasWord, ClusterOf, FatCluster, IndirectCluster;
    WordsAreEntries(sb);
    QuotIsDivision(i, sb.Entries());
    FatIndexOf(sb, i);
    assert fat[i] == fat[i];
    TableCluster(store, sb, tables, fat, i / Words(sb));
    ClusterWord(store, sb, tables[i / Words(sb)], i % Words(sb), fat[i]);
  }

  /** Page `j % ppc` of the `j / ppc`-th of the clusters, which are counted from the first allocatable one. */
  function RecordPage(sb: Superblock, cs: seq<nat>, j: nat): nat
    requires 0 < sb.pagesPerCluster && j / sb.pagesPerCluster < |cs|
  {
    (sb.allocStart + cs[j / sb.pagesPerCluster]) * sb.pagesPerCluster + j % sb.pagesPerCluster
  }

  lemma DataIsBehindTable(store: seq<Page>, sb: Superblock, c: nat, k: nat, at: nat)
    requires Layout(store, sb) && DIRENT_SIZE <= sb.pageLen && FsOk(View(store, sb)) && c < sb.clusters - sb.allocStart && k < sb.pagesPerCluster
    requires at == (sb.allocStart + c) * sb.pagesPerCluster + k
    ensures at < |store| && ClusterPages(View(store, sb), c)[k] == store[at]
  {
    hide FatCluster, ClusterOf, FatEntry, Fat;
    var ppc := sb.pagesPerCluster;
    TimesIsProduct(sb.allocStart + c, ppc);
    ItemFits(sb.allocStart + c, sb.clusters, ppc);
    ItemLe(sb.allocStart, sb.clusters, ppc);
    Distribute(sb.allocStart, c, ppc);
  }

  /** A record of a directory is the beginning of its page on the card. */
  lemma RecordIsRead(store: seq<Page>, sb: Superblock, cs: seq<nat>, j: nat)
    requires Layout(store, sb) && DIRENT_SIZE <= sb.pageLen && FsOk(View(store, sb)) && IsDir(View(store, sb), cs)
    requires j < |cs| * sb.pagesPerCluster
    ensures |Slots(View(store, sb), cs)| == |cs| * sb.pagesPerCluster && j / sb.pagesPerCluster < |cs|
    ensures RecordPage(sb, cs, j) < |store| && 96 <= |store[RecordPage(sb, cs, j)]|
    ensures Slots(View(store, sb), cs)[j] == store[RecordPage(sb, cs, j)][..96]
  {
    hide FatCluster, ClusterOf, FatEntry, Pages, Layout, ClusterPages, Fat, Data;
    var fs, ppc := View(store, sb), sb.pagesPerCluster;
    var i, k := j / ppc, j % ppc;
    PageInside(j, |cs|, ppc);
    TimesIsProduct(i, ppc);
    TimesIsProduct(|cs|, ppc);
    PagesAt(fs, cs, i, k);
    DataIsBehindTable(store, sb, cs[i], k, RecordPage(sb, cs, j));
  }
}
