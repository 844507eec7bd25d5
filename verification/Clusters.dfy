/** Cluster transfers through the page cache (MCIO.c). */
module ClusterIO {
  import opened Arithmetic
  import opened Bytes
  import opened CardDevice
  import opened BlockIO
  import opened PageCaching

  ghost function ClusterBytes(store: seq<Page>, clusterSize: nat, cluster: nat): seq<byte>
    requires Times(cluster, clusterSize) + clusterSize <= |store|
  {
    Flat(Group(store, clusterSize, cluster))
  }

  /** A cache that is switched on, and a cluster that lies in the part of the card it flushes and not on page 0. */
  ghost predicate Reachable(cache: PageCache, clusterSize: nat, cluster: nat)
    reads cache, cache.card, cache.slots
  {
    && cache.Valid() && cache.initialized
    && 0 < Times(cluster, clusterSize) && Times(cluster, clusterSize) + clusterSize <= cache.Limit()
  }

  method ReadCluster(cache: PageCache, clusterSize: nat, cluster: nat) returns (buffer: seq<byte>)
    requires Reachable(cache, clusterSize, cluster)
    modifies cache, cache.slots, cache.card
    ensures Reachable(cache, clusterSize, cluster) && cache.cardSizeBlocks == old(cache.cardSizeBlocks)
    ensures cache.store == old(cache.store)
    ensures buffer == ClusterBytes(cache.store, clusterSize, cluster)
  {
    ghost var g := Group(cache.store, clusterSize, cluster);
    buffer := [];
    for i := 0 to clusterSize
      invariant Reachable(cache, clusterSize, cluster) && cache.cardSizeBlocks == old(cache.cardSizeBlocks)
      invariant cache.store == old(cache.store)
      invariant buffer == Flat(g[..i])
    {
      var page := cache.ReadPageCached(Times(cluster, clusterSize) + i);
      buffer := buffer + page;
      assert g[..i + 1][..i] == g[..i];
    }
    assert g[..clusterSize] == g;
  }

  method WriteCluster(cache: PageCache, clusterSize: nat, cluster: nat, buffer: seq<byte>)
    requires Reachable(cache, clusterSize, cluster)
    requires |buffer| == Times(clusterSize, cache.card.pageLen)
    modifies cache, cache.slots, cache.card
    ensures Reachable(cache, clusterSize, cluster) && cache.cardSizeBlocks == old(cache.cardSizeBlocks)
    ensures BlockWritten(old(cache.store), cache.store, cache.card.pageLen, clusterSize, cluster, buffer)
  {
    var pageLen, first := cache.card.pageLen, Times(cluster, clusterSize);
    ghost var was := cache.store;
    for i := 0 to clusterSize
      invariant Reachable(cache, clusterSize, cluster) && cache.cardSizeBlocks == old(cache.cardSizeBlocks)
      invariant |cache.store| == |was|
      invariant forall p :: 0 <= p < |was| && !(first <= p < first + i) ==> cache.store[p] == was[p]
      invariant forall p :: first <= p < first + i ==> HasPage(buffer, pageLen, p - first, cache.store[p])
    {
      ItemFits(i, clusterSize, pageLen);
      var page := PageOf(buffer, pageLen, i);
      var _ := cache.WritePageCached(first + i, page);
      assert HasPage(buffer, pageLen, i, page);
    }
    FlatUnique(Group(cache.store, clusterSize, cluster), pageLen, buffer);
  }
}
