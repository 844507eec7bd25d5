/** Allocating a cluster and hooking it behind a chain (mctools.c, AddFATRecord). */
module Allocation {
  import opened Constants
  import opened Arithmetic
  import opened Bytes
  import opened PageCaching
  import opened FatTable
  import opened Chains
  import opened Dirents
  import opened Directory
  import opened DirectoryScan

  /** A C int returned as an unsigned int. */
  function AsUnsigned(i: int): u32 {
    i % U32_RANGE
  }

  /** The value of AddFATRecord: the cluster it hooked in, or the error code of the lookup past the end of the FAT. */
  function AddResult(fat: seq<u32>): u32
    requires |fat| < U32_RANGE
  {
    if FirstFree(fat) < |fat| then FirstFree(fat) else AsUnsigned(-EINVAL)
  }

  /** First fit: the lowest-numbered entry with the top bit clear. */
  method FindFreeCluster(cache: PageCache, sb: Superblock) returns (result: int, newRecClusterNum: nat)
    requires Mounted(cache, sb)
    modifies cache, cache.slots, cache.card
    ensures Mounted(cache, sb) && cache.store == old(cache.store)
    ensures var free := FirstFree(Fat(cache.store, sb));
            if free < sb.clusters then result == 0 && newRecClusterNum == free else result == -EINVAL
    ensures LowestWithTopBitClear(Fat(cache.store, sb), if result == 0 then newRecClusterNum else sb.clusters)
  {
    hide Represents, ClusterOf, FatCluster, FatEntry;
    ghost var fat := Fat(cache.store, sb);
    newRecClusterNum, result := 0, 0;
    while result >= 0
      invariant Mounted(cache, sb) && cache.store == old(cache.store)
      invariant result == 0 || (result == -EINVAL && FirstFree(fat) == sb.clusters)
      invariant result == 0 ==> newRecClusterNum <= sb.clusters && forall k :: 0 <= k < newRecClusterNum ==> !Free(fat[k])
      decreases result, sb.clusters - newRecClusterNum
    {
      var nextClusterNum;
      result, nextClusterNum := GetFatTableIndexData(cache, sb, newRecClusterNum);
      if result >= 0 && Free(nextClusterNum) {
        break;
      }
      newRecClusterNum := newRecClusterNum + 1;
    }
  }

  /** Entry `free` has its top bit clear and no entry in front of it has; with none at all, `free` is the size of the table. */
  ghost predicate LowestWithTopBitClear(fat: seq<u32>, free: nat) {
    && free <= |fat| && (free < |fat| ==> fat[free] < 0x8000_0000)
    && forall k :: 0 <= k < free ==> 0x8000_0000 <= fat[k]
  }

  /** The last cluster of a chain. */
  method FindLastCluster(cache: PageCache, sb: Superblock, start: nat, ghost cs: seq<nat>) returns (result: int, clusterNum: nat)
    requires Readable(cache, sb) && IsDir(View(cache.store, sb), cs) && start == cs[0]
    modifies cache, cache.slots, cache.card
    ensures Readable(cache, sb) && cache.store == old(cache.store)
    ensures result == 0 && clusterNum == cs[|cs| - 1]
  {
    hide Represents, ClusterOf, FatCluster, FatEntry;
    ghost var at := 0;
    clusterNum := start;
    var nextClusterNum;
    result, nextClusterNum := GetFatTableNextIndexData(cache, sb, clusterNum);
    while result >= 0 && nextClusterNum != END
      invariant Readable(cache, sb) && cache.store == old(cache.store)
      invariant 0 <= at < |cs| && clusterNum == cs[at] && result == 0
      invariant nextClusterNum == Masked(Fat(cache.store, sb)[clusterNum])
      decreases |cs| - at
    {
      NextInChain(View(cache.store, sb), cs, at);
      clusterNum, at := nextClusterNum, at + 1;
      result, nextClusterNum := GetFatTableNextIndexData(cache, sb, clusterNum);
    }
    NextInChain(View(cache.store, sb), cs, at);
  }

  /** Adds a cluster behind the chain `cs`; with no free entry nothing changes. */
  method AddFATRecord(cache: PageCache, sb: Superblock, start: nat, ghost cs: seq<nat>) returns (cluster: u32)
    requires Readable(cache, sb) && IsDir(View(cache.store, sb), cs) && start == cs[0]
    modifies cache, cache.slots, cache.card
    ensures Readable(cache, sb)
    ensures cluster == AddResult(Fat(old(cache.store), sb))
    ensures Fat(cache.store, sb) ==
            var fat := Fat(old(cache.store), sb);
            if FirstFree(fat) < |fat| then Appended(fat, cs[|cs| - 1], FirstFree(fat)) else fat
    ensures FirstFit(Fat(old(cache.store), sb), cs[|cs| - 1], Fat(cache.store, sb), cluster)
    ensures Data(cache.store, sb) == Data(old(cache.store), sb)
  {
    hide Represents, ClusterOf, FatCluster, FatEntry, FirstFree;
    ghost var fat := Fat(cache.store, sb);
    var result, newRecClusterNum := FindFreeCluster(cache, sb);
    if result >= 0 {
      var clusterNum;
      result, clusterNum := FindLastCluster(cache, sb, start, cs);
      if result >= 0 {
        result := UpdateFatTableIndexData(cache, sb, clusterNum, Link(newRecClusterNum));
        if result >= 0 {
          result := UpdateFatTableIndexData(cache, sb, newRecClusterNum, END);
          if result >= 0 {
            result := newRecClusterNum;
          }
        }
      }
    }
    cluster := AsUnsigned(result);
    AppendedInNumbers(fat, cs);
  }

  /** What AddFATRecord answers, and what it makes of the table, in numbers. */
  ghost predicate FirstFit(fat: seq<u32>, last: nat, fat': seq<u32>, cluster: u32) {
    last < |fat| < 0x7FFF_FFFF &&
    if cluster < |fat| then
      && LowestWithTopBitClear(fat, cluster)
      && fat' == fat[last := 0x8000_0000 + cluster][cluster := 0xFFFF_FFFF]
    else
      LowestWithTopBitClear(fat, |fat|) && cluster == 0x1_0000_0000 - 22 && fat' == fat
  }

  lemma AppendedInNumbers(fat: seq<u32>, cs: seq<nat>)
    requires |fat| < 0x7FFF_FFFF && cs != [] && cs[|cs| - 1] < |fat|
    ensures FirstFit(fat, cs[|cs| - 1], if FirstFree(fat) < |fat| then Appended(fat, cs[|cs| - 1], FirstFree(fat)) else fat, AddResult(fat))
  {
    hide FirstFree, AsUnsigned, Link, LowestWithTopBitClear;
    FirstFreeIsLowest(fat);
    if FirstFree(fat) < |fat| {
      LinkInNumbers(FirstFree(fat));
    } else {
      MinusEinval();
    }
  }

  lemma FirstFreeIsLowest(fat: seq<u32>)
    ensures LowestWithTopBitClear(fat, FirstFree(fat))
  {
    hide FirstFree;
  }

  lemma LinkInNumbers(c: nat)
    requires c < 0x7FFF_FFFF
    ensures Link(c) == 0x8000_0000 + c
  {
  }

  lemma MinusEinval()
    ensures AsUnsigned(-EINVAL) == 0x1_0000_0000 - 22
  {
  }

  /** The cluster CreateNewVirtualDirent writes a record to when the directory is full, as an absolute cluster number. */
  function TargetCluster(fat: seq<u32>, sb: Superblock): u32
    requires |fat| < U32_RANGE
  {
    (AddResult(fat) + sb.allocStart) % U32_RANGE
  }

  /**
   * AddFATRecord does not return 0 when it fails. The caller goes on to a data cluster if and only if an entry is free;
   * otherwise the record lands 22 clusters in front of the data, or outside the card.
   */
  lemma TargetIsDataExactlyWithFreeEntry(fat: seq<u32>, sb: Superblock)
    requires |fat| == sb.clusters < 0x7FFF_FFFF && 0 < sb.allocStart <= sb.clusters
    requires forall c :: 0 <= c < |fat| && Free(fat[c]) ==> c < sb.clusters - sb.allocStart
    requires 0 < |fat| && !Free(fat[0])
    ensures AddResult(fat) != 0
    ensures sb.allocStart <= TargetCluster(fat, sb) < sb.clusters <==> exists c :: 0 <= c < |fat| && Free(fat[c])
    ensures (forall c :: 0 <= c < |fat| ==> !Free(fat[c])) && 22 <= sb.allocStart ==> TargetCluster(fat, sb) == sb.allocStart - 22
  {
    var f := FirstFree(fat);
    if f < |fat| {
      assert Free(fat[f]);
    }
  }
}
