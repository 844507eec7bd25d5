/** Raw block and cluster transfers (MCIO.c), below the page cache. */
module BlockIO {
  import opened Arithmetic
  import opened Bytes
  import opened CardDevice

  /** The pages of one block (or cluster) of `size` pages. */
  function Group(pages: seq<Page>, size: nat, index: nat): (g: seq<Page>)
    requires Times(index, size) + size <= |pages|
    ensures |g| == size
    ensures forall k :: 0 <= k < size ==> Times(index, size) + k < |pages| && g[k] == pages[Times(index, size) + k]
  {
    pages[Times(index, size)..Times(index, size) + size]
  }

  /** The pages once block `index` holds the flat `buffer`. */
  ghost predicate BlockWritten(before: seq<Page>, after: seq<Page>, pageLen: nat, size: nat, index: nat, buffer: seq<byte>)
    requires Times(index, size) + size <= |before| && |buffer| == Times(size, pageLen)
  {
    && |after| == |before|
    && Flat(Group(after, size, index)) == buffer
    && forall p :: 0 <= p < |before| && !(Times(index, size) <= p < Times(index, size) + size) ==> after[p] == before[p]
  }

  /** Reads `size` pages from page index `index * size` on; ReadBlock and ReadCluster_raw are this loop. */
  method ReadPages(card: Card, size: nat, index: nat) returns (buffer: seq<byte>)
    requires card.Valid() && Times(index, size) + size <= |card.flash|
    ensures buffer == Flat(Group(card.flash, size, index))
  {
    ghost var g := Group(card.flash, size, index);
    buffer := [];
    for i := 0 to size
      invariant buffer == Flat(g[..i])
    {
      var page := card.McReadPage(Times(index, size) + i);
      buffer := buffer + page;
      assert g[..i + 1][..i] == g[..i];
    }
    assert g[..size] == g;
  }

  method ReadBlock(card: Card, block: nat) returns (buffer: seq<byte>)
    requires card.Valid() && Times(block, card.pagesPerBlock) + card.pagesPerBlock <= |card.flash|
    ensures buffer == Flat(Group(card.flash, card.pagesPerBlock, block))
  {
    buffer := ReadPages(card, card.pagesPerBlock, block);
  }

  method ReadClusterRaw(card: Card, clusterSize: nat, cluster: nat) returns (buffer: seq<byte>)
    requires card.Valid() && Times(cluster, clusterSize) + clusterSize <= |card.flash|
    ensures buffer == Flat(Group(card.flash, clusterSize, cluster))
  {
    buffer := ReadPages(card, clusterSize, cluster);
  }

  method WriteBlock(card: Card, block: nat, buffer: seq<byte>)
    requires card.Valid() && Times(block, card.pagesPerBlock) + card.pagesPerBlock <= |card.flash|
    requires |buffer| == Times(card.pagesPerBlock, card.pageLen)
    modifies card
    ensures card.Valid()
    ensures BlockWritten(old(card.flash), card.flash, card.pageLen, card.pagesPerBlock, block, buffer)
  {
    var size, pageLen := card.pagesPerBlock, card.pageLen;
    var first := Times(block, size);
    ghost var was := card.flash;
    card.McEraseBlock2(block);
    for i := 0 to size
      invariant card.Valid() && |card.flash| == |was|
      invariant forall p :: 0 <= p < |was| && !(first <= p < first + size) ==> card.flash[p] == was[p]
      invariant forall p :: first + i <= p < first + size ==> card.flash[p] == Erased(pageLen)
      invariant forall p :: first <= p < first + i ==> HasPage(buffer, pageLen, p - first, card.flash[p])
    {
      ItemFits(i, size, pageLen);
      var page := PageOf(buffer, pageLen, i);
      card.McWritePage(first + i, page);
      assert HasPage(buffer, pageLen, i, page);
    }
    FlatUnique(Group(card.flash, size, block), pageLen, buffer);
  }
}
