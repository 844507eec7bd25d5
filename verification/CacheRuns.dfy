/** Whole runs of the page cache, beside the same operations on a plain array of pages. */
module CacheRuns {
  import opened Arithmetic
  import opened Bytes
  import opened CardDevice
  import opened PageCaching

  datatype Op = Read(page: nat) | Write(page: nat, buffer: Page) | Flush

  ghost predicate InRange(op: Op, limit: nat, pageLen: nat) {
    match op
    case Read(p) => 0 < p < limit
    case Write(p, buffer) => 0 < p < limit && |buffer| == pageLen
    case Flush => true
  }

  ghost predicate AllInRange(ops: seq<Op>, limit: nat, pageLen: nat) {
    forall k :: 0 <= k < |ops| ==> InRange(ops[k], limit, pageLen)
  }

  /** The pages after some operations, when reads and flushes change nothing. */
  function Pages(pages: seq<Page>, ops: seq<Op>): (r: seq<Page>)
    ensures |r| == |pages|
  {
    if ops == [] then pages else
    var before := Pages(pages, ops[..|ops| - 1]);
    match ops[|ops| - 1]
    case Write(p, buffer) => if p < |pages| then before[p := buffer] else before
    case _ => before
  }

  /** What the reads among some operations give. */
  function Answers(pages: seq<Page>, ops: seq<Op>): seq<Page> {
    if ops == [] then [] else
    var n := |ops| - 1;
    Answers(pages, ops[..n]) +
    if ops[n].Read? && ops[n].page < |pages| then [Pages(pages, ops[..n])[ops[n].page]] else []
  }

  /** A read in a plain array gives the last page written there, or the original one. */
  lemma {:induction false} ReadIsLastWrite(pages: seq<Page>, ops: seq<Op>, p: nat, w: nat)
    requires p < |pages| && w <= |ops|
    requires forall k :: w <= k < |ops| ==> !(ops[k].Write? && ops[k].page == p)
    requires w == 0 || (ops[w - 1].Write? && ops[w - 1].page == p)
    ensures Pages(pages, ops)[p] == if w == 0 then pages[p] else ops[w - 1].buffer
  {
    var n := |ops| - 1;
    if w < |ops| {
      assert ops[..n][..w] == ops[..w];
      ReadIsLastWrite(pages, ops[..n], p, w);
    }
  }

  method Replay(cache: PageCache, ops: seq<Op>) returns (answers: seq<Page>)
    requires cache.Valid() && cache.initialized && AllInRange(ops, cache.Limit(), cache.card.pageLen)
    modifies cache, cache.slots, cache.card
    ensures cache.Valid() && cache.initialized && cache.cardSizeBlocks == old(cache.cardSizeBlocks)
    ensures cache.store == Pages(old(cache.store), ops)
    ensures answers == Answers(old(cache.store), ops)
    ensures ops != [] && ops[|ops| - 1].Flush? ==> cache.card.flash == cache.store
  {
    answers := [];
    ghost var was := cache.store;
    for k := 0 to |ops|
      invariant cache.Valid() && cache.initialized && cache.cardSizeBlocks == old(cache.cardSizeBlocks)
      invariant cache.store == Pages(was, ops[..k]) && answers == Answers(was, ops[..k])
      invariant 0 < k && ops[k - 1].Flush? ==> cache.card.flash == cache.store
    {
      assert ops[..k + 1][..k] == ops[..k];
      assert InRange(ops[k], cache.Limit(), cache.card.pageLen);
      match ops[k]
      case Read(p) =>
        var page := cache.ReadPageCached(p);
        answers := answers + [page];
      case Write(p, buffer) =>
        var _ := cache.WritePageCached(p, buffer);
      case Flush =>
        var _ := cache.FlushPageCache();
    }
    assert ops[..|ops|] == ops;
  }

  /** From a fresh cache to the last flush: the reads see, and the card ends up as, the plain array. */
  method Session(card: Card, ops: seq<Op>) returns (answers: seq<Page>)
    requires card.Valid() && AllInRange(ops, Times(Quot(|card.flash|, card.pagesPerBlock), card.pagesPerBlock), card.pageLen)
    modifies card
    ensures card.Valid() && card.flash == Pages(old(card.flash), ops)
    ensures answers == Answers(old(card.flash), ops)
  {
    var cache := new PageCache(card);
    var _ := cache.InitPageCache();
    answers := Replay(cache, ops);
    var _ := cache.FlushPageCache();
  }
}
