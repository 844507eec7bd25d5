/** The file allocation table, reached through two levels of indirection (mctools.c). */
module FatTable {
  import opened Constants
  import opened Arithmetic
  import opened Bytes
  import opened CardDevice
  import opened BlockIO
  import opened PageCaching
  import opened ClusterIO

  datatype Superblock = Superblock(
    pageLen: nat, pagesPerCluster: nat, clusters: nat, allocStart: nat, rootdirCluster: nat, ifcList: seq<nat>)
  {
    /** NumEntriesPerFatCluster */
    function Entries(): nat {
      Times(pagesPerCluster, pageLen) / 4
    }

    /** How many clusters the FAT takes up. */
    ghost function FatClusters(): nat
      requires 0 < Entries()
    {
      Quot(clusters + Entries() - 1, Entries())
    }
  }

  function Word(b: seq<byte>, k: nat): u32
    requires 4 * k + 4 <= |b|
  {
    U32(b, 4 * k)
  }

  /** `q` numbers a cluster of the FAT that holds entries of this card. */
  ghost predicate FatIndex(sb: Superblock, q: nat)
    requires 0 < sb.Entries()
  {
    q < sb.FatClusters()
  }

  /** The indirect cluster in which the number of the `q`-th FAT cluster is kept. */
  ghost function IndirectCluster(sb: Superblock, q: nat): nat
    requires 0 < sb.Entries() && Quot(q, sb.Entries()) < |sb.ifcList|
  {
    sb.ifcList[Quot(q, sb.Entries())]
  }

  ghost predicate Geometry(store: seq<Page>, sb: Superblock) {
    && 0 < sb.pagesPerCluster && 0 < sb.Entries() && 0 < sb.allocStart <= sb.clusters
    && sb.rootdirCluster == 0 && sb.clusters < 0x7FFF_FFFF
    && Times(sb.clusters, sb.pagesPerCluster) <= |store| && AllLen(store, sb.pageLen)
    && Times(sb.clusters, sb.pagesPerCluster) < U32_RANGE
    && forall q: nat :: FatIndex(sb, q) ==> Quot(q, sb.Entries()) < |sb.ifcList| && 0 < IndirectCluster(sb, q) < sb.allocStart
  }

  ghost function ClusterOf(store: seq<Page>, sb: Superblock, c: nat): (b: seq<byte>)
    requires Geometry(store, sb) && c < sb.clusters
    ensures |b| == Times(sb.pagesPerCluster, sb.pageLen)
  {
    ItemFits(c, sb.clusters, sb.pagesPerCluster);
    FlatLen(Group(store, sb.pagesPerCluster, c), sb.pageLen);
    ClusterBytes(store, sb.pagesPerCluster, c)
  }

  /** The number of the `q`-th cluster of the FAT. */
  ghost function FatCluster(store: seq<Page>, sb: Superblock, q: nat): u32
    requires Geometry(store, sb) && FatIndex(sb, q)
  {
    Word(ClusterOf(store, sb, IndirectCluster(sb, q)), Rem(q, sb.Entries()))
  }

  /** FAT clusters are distinct, and are neither indirect clusters nor data. */
  ghost predicate Layout(store: seq<Page>, sb: Superblock) {
    && Geometry(store, sb)
    && (forall q: nat :: FatIndex(sb, q) ==> 0 < FatCluster(store, sb, q) < sb.allocStart)
    && (forall q: nat, r: nat :: FatIndex(sb, q) && FatIndex(sb, r) ==> FatCluster(store, sb, q) != IndirectCluster(sb, r))
    && (forall q: nat, r: nat :: FatIndex(sb, q) && FatIndex(sb, r) && q != r ==> FatCluster(store, sb, q) != FatCluster(store, sb, r))
  }

  lemma FatIndexOf(sb: Superblock, i: nat)
    requires 0 < sb.Entries() && i < sb.clusters
    ensures FatIndex(sb, Quot(i, sb.Entries()))
  {
    QuotGrows(i + sb.Entries(), sb.clusters + sb.Entries() - 1, sb.Entries());
  }

  ghost function FatEntry(store: seq<Page>, sb: Superblock, i: nat): u32
    requires Layout(store, sb) && i < sb.clusters
  {
    FatIndexOf(sb, i);
    Word(ClusterOf(store, sb, FatCluster(store, sb, Quot(i, sb.Entries()))), Rem(i, sb.Entries()))
  }

  /** The FAT as the plain array it stands for. */
  ghost function Fat(store: seq<Page>, sb: Superblock): (fat: seq<u32>)
    requires Layout(store, sb)
    ensures |fat| == sb.clusters
    ensures forall i :: 0 <= i < sb.clusters ==> fat[i] == FatEntry(store, sb, i)
  {
    seq(sb.clusters, i requires 0 <= i < sb.clusters => FatEntry(store, sb, i))
  }

  /** Everything from the first allocatable cluster on. */
  ghost function Data(store: seq<Page>, sb: Superblock): seq<Page>
    requires Geometry(store, sb)
  {
    ItemLe(sb.allocStart, sb.clusters, sb.pagesPerCluster);
    store[Times(sb.allocStart, sb.pagesPerCluster)..]
  }

  /** The cache holds a card with this superblock, all of whose clusters a flush reaches. */
  ghost predicate Mounted(cache: PageCache, sb: Superblock)
    reads cache, cache.card, cache.slots
  {
    && cache.Valid() && cache.initialized
    && cache.card.pageLen == sb.pageLen
    && Layout(cache.store, sb)
    && Times(sb.clusters, sb.pagesPerCluster) <= cache.Limit()
  }

  /** Reads one cluster below the end of a mounted card. */
  method ReadMounted(cache: PageCache, sb: Superblock, c: nat) returns (buffer: seq<byte>)
    requires Mounted(cache, sb) && 0 < c < sb.clusters
    modifies cache, cache.slots, cache.card
    ensures Mounted(cache, sb) && cache.store == old(cache.store)
    ensures buffer == ClusterOf(cache.store, sb, c)
  {
    ItemFits(c, sb.clusters, sb.pagesPerCluster);
    ItemFits(0, c, sb.pagesPerCluster);
    buffer := ReadCluster(cache, sb.pagesPerCluster, c);
  }

  lemma WordFits(sb: Superblock, k: nat)
    requires 0 < sb.Entries()
    ensures 4 * Rem(k, sb.Entries()) + 4 <= Times(sb.pagesPerCluster, sb.pageLen)
  {
  }

  method GetFatTableIndexData(cache: PageCache, sb: Superblock, index: nat) returns (result: int, entry: u32)
    requires Mounted(cache, sb)
    modifies cache, cache.slots, cache.card
    ensures Mounted(cache, sb) && cache.store == old(cache.store)
    ensures result == if index < sb.clusters then 0 else -EINVAL
    ensures index < sb.clusters ==> entry == FatEntry(cache.store, sb, index)
  {
    entry := 0;
    if index >= sb.clusters {
      return -EINVAL, 0;
    }
    var indirectFatIndex := Quot(index, sb.Entries());
    FatIndexOf(sb, index);
    var fatCluster := FindFatCluster(cache, sb, indirectFatIndex);
    var fatTable := ReadMounted(cache, sb, fatCluster);
    WordFits(sb, index);
    entry := Word(fatTable, Rem(index, sb.Entries()));
    result := 0;
  }

  /** The first level of the lookup: the number of a FAT cluster, from the indirect FAT cluster that lists it. */
  method FindFatCluster(cache: PageCache, sb: Superblock, indirectFatIndex: nat) returns (fatCluster: u32)
    requires Mounted(cache, sb) && FatIndex(sb, indirectFatIndex)
    modifies cache, cache.slots, cache.card
    ensures Mounted(cache, sb) && cache.store == old(cache.store)
    ensures fatCluster == FatCluster(cache.store, sb, indirectFatIndex)
  {
    var indirectFatIndexOffset := Rem(indirectFatIndex, sb.Entries());
    var indirectFatDoubleIndex := Quot(indirectFatIndex, sb.Entries());
    assert sb.ifcList[indirectFatDoubleIndex] == IndirectCluster(sb, indirectFatIndex);
    var indirectTable := ReadMounted(cache, sb, sb.ifcList[indirectFatDoubleIndex]);
    WordFits(sb, indirectFatIndex);
    fatCluster := Word(indirectTable, indirectFatIndexOffset);
  }

  /** The card after cluster `c` is rewritten: every other cluster reads as before. */
  ghost predicate OneClusterWritten(before: seq<Page>, after: seq<Page>, sb: Superblock, c: nat, buffer: seq<byte>)
    requires Geometry(before, sb)
  {
    && Geometry(after, sb) && c < sb.clusters && |after| == |before|
    && ClusterOf(after, sb, c) == buffer
    && (forall d :: 0 <= d < sb.clusters && d != c ==> ClusterOf(after, sb, d) == ClusterOf(before, sb, d))
    && (forall p :: 0 <= p < |before| && !(Times(c, sb.pagesPerCluster) <= p < Times(c, sb.pagesPerCluster) + sb.pagesPerCluster) ==> after[p] == before[p])
  }

  lemma WrittenClusters(before: seq<Page>, after: seq<Page>, sb: Superblock, c: nat, buffer: seq<byte>)
    requires Geometry(before, sb) && AllLen(after, sb.pageLen) && c < sb.clusters
    requires Times(c, sb.pagesPerCluster) + sb.pagesPerCluster <= |before| && |buffer| == Times(sb.pagesPerCluster, sb.pageLen)
    requires BlockWritten(before, after, sb.pageLen, sb.pagesPerCluster, c, buffer)
    ensures OneClusterWritten(before, after, sb, c, buffer)
  {
    forall d | 0 <= d < sb.clusters && d != c
      ensures ClusterOf(after, sb, d) == ClusterOf(before, sb, d)
    {
      ItemFits(d, sb.clusters, sb.pagesPerCluster);
      if d < c {
        ItemFits(d, c, sb.pagesPerCluster);
      } else {
        ItemFits(c, d, sb.pagesPerCluster);
      }
      assert Group(after, sb.pagesPerCluster, d) == Group(before, sb.pagesPerCluster, d);
    }
  }

  /** A store of one word into the FAT cluster that holds entry `index`. */
  ghost predicate EntryWritten(before: seq<Page>, after: seq<Page>, sb: Superblock, index: nat, data: u32)
    requires Layout(before, sb) && index < sb.clusters
  {
    FatIndexOf(sb, index);
    WordFits(sb, index);
    var c := FatCluster(before, sb, Quot(index, sb.Entries()));
    OneClusterWritten(before, after, sb, c, Patch(ClusterOf(before, sb, c), 4 * Rem(index, sb.Entries()), OfU32(data)))
  }

  /** The FAT is an array: a store changes the entry it names and nothing else, on the FAT or among the data. */
  lemma FatIsAnArray(before: seq<Page>, after: seq<Page>, sb: Superblock, index: nat, data: u32)
    requires Layout(before, sb) && index < sb.clusters
    requires EntryWritten(before, after, sb, index, data)
    ensures Layout(after, sb)
    ensures Fat(after, sb) == Fat(before, sb)[index := data]
    ensures Data(after, sb) == Data(before, sb)
  {
    FatIndexOf(sb, index);
    WordFits(sb, index);
    var q := Quot(index, sb.Entries());
    FatAfter(before, after, sb, FatCluster(before, sb, q), index, data, q);
  }

  lemma FatAfter(before: seq<Page>, after: seq<Page>, sb: Superblock, c: nat, index: nat, data: u32, q: nat)
    requires Layout(before, sb) && index < sb.clusters
    requires q == Quot(index, sb.Entries()) && FatIndex(sb, q) && c == FatCluster(before, sb, q)
    requires 4 * Rem(index, sb.Entries()) + 4 <= |ClusterOf(before, sb, c)|
    requires OneClusterWritten(before, after, sb, c, Patch(ClusterOf(before, sb, c), 4 * Rem(index, sb.Entries()), OfU32(data)))
    ensures Layout(after, sb)
    ensures Fat(after, sb) == Fat(before, sb)[index := data]
    ensures Data(after, sb) == Data(before, sb)
  {
    var buffer := Patch(ClusterOf(before, sb, c), 4 * Rem(index, sb.Entries()), OfU32(data));
    FatClustersStay(before, after, sb, c, buffer, q);
    forall i | 0 <= i < sb.clusters
      ensures FatEntry(after, sb, i) == if i == index then data else FatEntry(before, sb, i)
    {
      EntryAfter(before, after, sb, c, index, data, q, i);
    }
    DataStays(before, after, sb, c, buffer);
  }

  lemma DataStays(before: seq<Page>, after: seq<Page>, sb: Superblock, c: nat, buffer: seq<byte>)
    requires Geometry(before, sb) && c < sb.allocStart && OneClusterWritten(before, after, sb, c, buffer)
    ensures Data(after, sb) == Data(before, sb)
  {
    ItemFits(c, sb.allocStart, sb.pagesPerCluster);
    ItemLe(sb.allocStart, sb.clusters, sb.pagesPerCluster);
    SuffixStays(before, after, Times(c, sb.pagesPerCluster), sb.pagesPerCluster, Times(sb.allocStart, sb.pagesPerCluster));
  }

  lemma SuffixStays(before: seq<Page>, after: seq<Page>, first: nat, size: nat, start: nat)
    requires |after| == |before| && first + size <= start <= |before|
    requires forall p :: 0 <= p < |before| && !(first <= p < first + size) ==> after[p] == before[p]
    ensures after[start..] == before[start..]
  {
  }

  lemma FatClusterStays(before: seq<Page>, after: seq<Page>, sb: Superblock, c: nat, buffer: seq<byte>, q: nat)
    requires Geometry(before, sb) && OneClusterWritten(before, after, sb, c, buffer)
    requires FatIndex(sb, q) && c != IndirectCluster(sb, q)
    ensures FatCluster(after, sb, q) == FatCluster(before, sb, q)
  {
    var d := IndirectCluster(sb, q);
    assert ClusterOf(after, sb, d) == ClusterOf(before, sb, d);
  }

  lemma FatClustersStay(before: seq<Page>, after: seq<Page>, sb: Superblock, c: nat, buffer: seq<byte>, r: nat)
    requires Layout(before, sb) && FatIndex(sb, r) && c == FatCluster(before, sb, r)
    requires OneClusterWritten(before, after, sb, c, buffer)
    ensures forall q: nat :: FatIndex(sb, q) ==> FatCluster(after, sb, q) == FatCluster(before, sb, q)
    ensures Layout(after, sb)
  {
    forall q: nat | FatIndex(sb, q)
      ensures FatCluster(after, sb, q) == FatCluster(before, sb, q)
    {
      FatClusterStays(before, after, sb, c, buffer, q);
    }
    SameFatClusters(before, after, sb);
  }

  lemma SameFatClusters(before: seq<Page>, after: seq<Page>, sb: Superblock)
    requires Layout(before, sb) && Geometry(after, sb)
    requires forall q: nat :: FatIndex(sb, q) ==> FatCluster(after, sb, q) == FatCluster(before, sb, q)
    ensures Layout(after, sb)
  {
  }

  lemma OtherClusterEntry(before: seq<Page>, after: seq<Page>, sb: Superblock, c: nat, buffer: seq<byte>, r: nat, i: nat)
    requires Layout(before, sb) && Layout(after, sb) && FatIndex(sb, r) && c == FatCluster(before, sb, r)
    requires OneClusterWritten(before, after, sb, c, buffer)
    requires i < sb.clusters && Quot(i, sb.Entries()) != r
    requires forall q: nat :: FatIndex(sb, q) ==> FatCluster(after, sb, q) == FatCluster(before, sb, q)
    ensures FatEntry(after, sb, i) == FatEntry(before, sb, i)
  {
    FatIndexOf(sb, i);
    var d := FatCluster(before, sb, Quot(i, sb.Entries()));
    assert c != d;
    assert ClusterOf(after, sb, d) == ClusterOf(before, sb, d);
  }

  lemma EntryAfter(before: seq<Page>, after: seq<Page>, sb: Superblock, c: nat, index: nat, data: u32, q: nat, i: nat)
    requires Layout(before, sb) && Layout(after, sb) && index < sb.clusters && i < sb.clusters
    requires q == Quot(index, sb.Entries()) && FatIndex(sb, q) && c == FatCluster(before, sb, q)
    requires 4 * Rem(index, sb.Entries()) + 4 <= |ClusterOf(before, sb, c)|
    requires OneClusterWritten(before, after, sb, c, Patch(ClusterOf(before, sb, c), 4 * Rem(index, sb.Entries()), OfU32(data)))
    requires forall q: nat :: FatIndex(sb, q) ==> FatCluster(after, sb, q) == FatCluster(before, sb, q)
    ensures FatEntry(after, sb, i) == if i == index then data else FatEntry(before, sb, i)
  {
    var buffer := Patch(ClusterOf(before, sb, c), 4 * Rem(index, sb.Entries()), OfU32(data));
    FatIndexOf(sb, i);
    if Quot(i, sb.Entries()) == q {
      SameClusterEntry(before, sb, c, index, i, data, q);
    } else {
      OtherClusterEntry(before, after, sb, c, buffer, q, i);
    }
  }

  lemma SameQuotient(i: nat, j: nat, m: nat)
    requires 0 < m && Quot(i, m) == Quot(j, m)
    ensures Rem(i, m) == Rem(j, m) <==> i == j
  {
    QuotRem(i, m);
    QuotRem(j, m);
  }

  lemma SameClusterEntry(store: seq<Page>, sb: Superblock, c: nat, index: nat, i: nat, data: u32, q: nat)
    requires Geometry(store, sb) && c < sb.clusters
    requires q == Quot(index, sb.Entries()) == Quot(i, sb.Entries())
    ensures 4 * Rem(index, sb.Entries()) + 4 <= |ClusterOf(store, sb, c)| && 4 * Rem(i, sb.Entries()) + 4 <= |ClusterOf(store, sb, c)|
    ensures Word(Patch(ClusterOf(store, sb, c), 4 * Rem(index, sb.Entries()), OfU32(data)), Rem(i, sb.Entries()))
         == if i == index then data else Word(ClusterOf(store, sb, c), Rem(i, sb.Entries()))
  {
    WordFits(sb, index);
    WordFits(sb, i);
    SameQuotient(i, index, sb.Entries());
    PatchWord(ClusterOf(store, sb, c), 4 * Rem(index, sb.Entries()), data, 4 * Rem(i, sb.Entries()));
  }

  method UpdateFatTableIndexData(cache: PageCache, sb: Superblock, index: nat, data: u32) returns (result: int)
    requires Mounted(cache, sb)
    modifies cache, cache.slots, cache.card
    ensures Mounted(cache, sb)
    ensures result == if index < sb.clusters then 0 else -EINVAL
    ensures Fat(cache.store, sb) == if index < sb.clusters then Fat(old(cache.store), sb)[index := data] else Fat(old(cache.store), sb)
    ensures Data(cache.store, sb) == Data(old(cache.store), sb)
  {
    if index >= sb.clusters {
      return -EINVAL;
    }
    FatIndexOf(sb, index);
    var fatCluster := FindFatCluster(cache, sb, Quot(index, sb.Entries()));
    var fatTable := ReadMounted(cache, sb, fatCluster);
    WordFits(sb, index);
    fatTable := Patch(fatTable, 4 * Rem(index, sb.Entries()), OfU32(data));
    ghost var was := cache.store;
    WriteMounted(cache, sb, fatCluster, fatTable);
    FatIsAnArray(was, cache.store, sb, index, data);
    result := 0;
  }

  /** Writes one cluster; what it does to the layout is for the caller to show. */
  method WriteMounted(cache: PageCache, sb: Superblock, c: nat, buffer: seq<byte>)
    requires Mounted(cache, sb) && 0 < c < sb.clusters
    requires |buffer| == Times(sb.pagesPerCluster, sb.pageLen)
    modifies cache, cache.slots, cache.card
    ensures cache.Valid() && cache.initialized && Times(sb.clusters, sb.pagesPerCluster) <= cache.Limit()
    ensures OneClusterWritten(old(cache.store), cache.store, sb, c, buffer)
  {
    ItemFits(c, sb.clusters, sb.pagesPerCluster);
    ItemFits(0, c, sb.pagesPerCluster);
    ghost var was := cache.store;
    WriteCluster(cache, sb.pagesPerCluster, c, buffer);
    WrittenClusters(was, cache.store, sb, c, buffer);
  }
}
