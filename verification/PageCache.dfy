/** The write-back page cache (cache.c). */
module PageCaching {
  import opened Constants
  import opened Arithmetic
  import opened Bytes
  import opened CardDevice
  import opened BlockIO
  import Counting

  const PAGE_CACHE_SIZE := 128
  const NO_OFFSET := -1

  /** `present` and `dirty` are the two bits of the C flags word. */
  datatype Slot = Slot(pageNum: nat, buffer: Page, present: bool, dirty: bool)

  datatype FlushEntry = FlushEntry(blockPageOffset: int, buffer: Page)

  /** The slot a lookup of page `p` stops at, or the number of slots when there is none. */
  function Hit(slots: seq<Slot>, p: nat): (i: nat)
    ensures i <= |slots|
    ensures i < |slots| ==> slots[i].pageNum == p
    ensures forall k :: 0 <= k < i ==> slots[k].pageNum != p
  {
    if slots == [] then 0 else if slots[0].pageNum == p then 0 else 1 + Hit(slots[1..], p)
  }

  ghost predicate Holds(s: Slot, p: nat) {
    s.present && s.dirty && s.pageNum == p
  }

  /** `store` is what the card and the cache together stand for; only pages below `limit` are ever flushed. */
  ghost predicate Represents(slots: seq<Slot>, flash: seq<Page>, store: seq<Page>, limit: nat) {
    && |store| == |flash| && limit <= |flash|
    && (forall i :: 0 <= i < |slots| ==> (slots[i].present <==> slots[i].pageNum != 0) && (slots[i].dirty ==> slots[i].present))
    && (forall i, j :: 0 <= i < j < |slots| && slots[i].present ==> slots[i].pageNum != slots[j].pageNum)
    && (forall i :: 0 <= i < |slots| && slots[i].present ==> slots[i].pageNum < limit && slots[i].buffer == store[slots[i].pageNum])
    && (forall p :: 0 <= p < |store| && store[p] != flash[p] ==> exists i :: 0 <= i < |slots| && Holds(slots[i], p))
  }

  ghost predicate InBlock(s: Slot, block: nat, size: nat)
    requires 0 < size
  {
    s.present && s.dirty && Quot(s.pageNum, size) == block
  }

  /** The flush list of one block: its dirty pages, in slot order. */
  ghost function Pending(slots: seq<Slot>, block: nat, size: nat): (list: seq<FlushEntry>)
    requires 0 < size
    ensures forall e :: 0 <= e < |list| ==> 0 <= list[e].blockPageOffset < size
  {
    if slots == [] then [] else
    var last := slots[|slots| - 1];
    Pending(slots[..|slots| - 1], block, size) +
    if InBlock(last, block, size) then [FlushEntry(OffsetIn(last.pageNum, block, size), last.buffer)] else []
  }

  ghost function OffsetIn(p: nat, block: nat, size: nat): (o: int)
    requires 0 < size && Quot(p, size) == block
    ensures 0 <= o < size && p == Times(block, size) + o
  {
    QuotRem(p, size);
    p - Times(block, size)
  }

  lemma {:induction false} PendingSound(slots: seq<Slot>, block: nat, size: nat, e: nat)
    requires 0 < size && e < |Pending(slots, block, size)|
    ensures exists i :: 0 <= i < |slots| && InBlock(slots[i], block, size) &&
                        FromSlot(Pending(slots, block, size)[e], slots[i], block, size)
  {
    var n := |slots| - 1;
    var front := Pending(slots[..n], block, size);
    if e < |front| {
      PendingSound(slots[..n], block, size, e);
      var i :| 0 <= i < n && InBlock(slots[..n][i], block, size) && FromSlot(front[e], slots[..n][i], block, size);
      assert slots[i] == slots[..n][i];
    } else {
      assert FromSlot(Pending(slots, block, size)[e], slots[n], block, size);
    }
  }

  ghost predicate FromSlot(e: FlushEntry, s: Slot, block: nat, size: nat)
    requires 0 < size
  {
    s.pageNum == Times(block, size) + e.blockPageOffset && s.buffer == e.buffer
  }

  lemma {:induction false} PendingComplete(slots: seq<Slot>, block: nat, size: nat, i: nat)
    requires 0 < size && i < |slots| && InBlock(slots[i], block, size)
    ensures exists e :: 0 <= e < |Pending(slots, block, size)| && FromSlot(Pending(slots, block, size)[e], slots[i], block, size)
  {
    var n := |slots| - 1;
    var front := Pending(slots[..n], block, size);
    if i < n {
      PendingComplete(slots[..n], block, size, i);
      var e :| 0 <= e < |front| && FromSlot(front[e], slots[..n][i], block, size);
      assert Pending(slots, block, size)[e] == front[e];
    } else {
      assert FromSlot(Pending(slots, block, size)[|front|], slots[i], block, size);
    }
  }

  ghost predicate Distinct(slots: seq<Slot>) {
    forall i, j :: 0 <= i < j < |slots| && slots[i].present ==> slots[i].pageNum != slots[j].pageNum
  }

  /** Cached page numbers are distinct, so no block ever has more pages to flush than its flush list holds. */
  lemma PendingFits(slots: seq<Slot>, block: nat, size: nat)
    requires 0 < size && Distinct(slots)
    ensures |Pending(slots, block, size)| <= size
  {
    PendingDistinct(slots, block, size);
    var list := Pending(slots, block, size);
    Counting.Pigeonhole(seq(|list|, e requires 0 <= e < |list| => list[e].blockPageOffset), size);
  }

  lemma PendingNone(block: nat, size: nat)
    requires 0 < size
    ensures Pending([], block, size) == []
  {
  }

  lemma PendingNext(slots: seq<Slot>, i: nat, block: nat, size: nat)
    requires i < |slots| && 0 < size
    ensures Pending(slots[..i + 1], block, size) ==
            Pending(slots[..i], block, size) +
            if InBlock(slots[i], block, size) then [FlushEntry(OffsetIn(slots[i].pageNum, block, size), slots[i].buffer)] else []
  {
    assert slots[..i + 1][..i] == slots[..i];
  }

  lemma PendingRoom(slots: seq<Slot>, flash: seq<Page>, store: seq<Page>, limit: nat, n: nat, block: nat, size: nat)
    requires Represents(slots, flash, store, limit) && n <= |slots| && 0 < size
    ensures |Pending(slots[..n], block, size)| <= size
  {
    PendingFits(slots[..n], block, size);
  }

  lemma {:induction false} PendingDistinct(slots: seq<Slot>, block: nat, size: nat)
    requires 0 < size && Distinct(slots)
    ensures forall e, f :: 0 <= e < f < |Pending(slots, block, size)| ==>
                             Pending(slots, block, size)[e].blockPageOffset != Pending(slots, block, size)[f].blockPageOffset
  {
    if slots != [] {
      var n := |slots| - 1;
      PendingDistinct(slots[..n], block, size);
      var front := Pending(slots[..n], block, size);
      forall e | 0 <= e < |front| && InBlock(slots[n], block, size)
        ensures front[e].blockPageOffset != OffsetIn(slots[n].pageNum, block, size)
      {
        PendingSound(slots[..n], block, size, e);
      }
    }
  }

  /** The pages of a block after the entries of a flush list are copied over them in turn. */
  ghost function Overlay(pages: seq<Page>, list: seq<FlushEntry>): (r: seq<Page>)
    requires forall e :: 0 <= e < |list| ==> 0 <= list[e].blockPageOffset < |pages|
    ensures |r| == |pages|
  {
    if list == [] then pages else
    var n := |list| - 1;
    Overlay(pages, list[..n])[list[n].blockPageOffset := list[n].buffer]
  }

  /** A flush list that agrees with `target` and covers every page that differs from it yields `target`. */
  lemma {:induction false} OverlaySettles(pages: seq<Page>, list: seq<FlushEntry>, target: seq<Page>, k: nat)
    requires |target| == |pages| && k < |pages|
    requires forall e :: 0 <= e < |list| ==> 0 <= list[e].blockPageOffset < |pages| && list[e].buffer == target[list[e].blockPageOffset]
    requires pages[k] != target[k] ==> exists e :: 0 <= e < |list| && list[e].blockPageOffset == k
    ensures Overlay(pages, list)[k] == target[k]
  {
    if list != [] {
      var n := |list| - 1;
      if list[n].blockPageOffset != k {
        OverlaySettles(pages, list[..n], target, k);
      }
    }
  }

  /** Copying the flush list of a block over its flash pages gives the block of the store. */
  lemma BlockSettles(slots: seq<Slot>, flash: seq<Page>, store: seq<Page>, limit: nat, block: nat, size: nat)
    requires Represents(slots, flash, store, limit)
    requires 0 < size && Times(block, size) + size <= |flash|
    ensures Overlay(Group(flash, size, block), Pending(slots, block, size)) == Group(store, size, block)
  {
    hide Pending, Overlay;
    var list, pages, target := Pending(slots, block, size), Group(flash, size, block), Group(store, size, block);
    forall e | 0 <= e < |list|
      ensures list[e].buffer == target[list[e].blockPageOffset]
    {
      PendingSound(slots, block, size, e);
    }
    forall k | 0 <= k < size
      ensures Overlay(pages, list)[k] == target[k]
    {
      if pages[k] != target[k] {
        StaleIsPending(slots, flash, store, limit, block, size, k);
      }
      OverlaySettles(pages, list, target, k);
    }
  }

  /** A page of the block that differs from the store is in the flush list. */
  lemma StaleIsPending(slots: seq<Slot>, flash: seq<Page>, store: seq<Page>, limit: nat, block: nat, size: nat, k: nat)
    requires Represents(slots, flash, store, limit)
    requires k < size && Times(block, size) + size <= |flash| && flash[Times(block, size) + k] != store[Times(block, size) + k]
    ensures exists e :: 0 <= e < |Pending(slots, block, size)| && Pending(slots, block, size)[e].blockPageOffset == k
  {
    var p := Times(block, size) + k;
    var i :| 0 <= i < |slots| && Holds(slots[i], p);
    QuotUnique(p, size, block, k);
    PendingComplete(slots, block, size, i);
  }

  lemma PendingLen(slots: seq<Slot>, flash: seq<Page>, store: seq<Page>, limit: nat, block: nat, size: nat, pageLen: nat)
    requires Represents(slots, flash, store, limit) && AllLen(store, pageLen) && 0 < size
    ensures forall e :: 0 <= e < |Pending(slots, block, size)| ==> |Pending(slots, block, size)[e].buffer| == pageLen
  {
    forall e | 0 <= e < |Pending(slots, block, size)|
      ensures |Pending(slots, block, size)[e].buffer| == pageLen
    {
      PendingSound(slots, block, size, e);
    }
  }

  /** Once every page a flush reaches is written, no page of the card differs from the store. */
  lemma FlushedMatches(slots: seq<Slot>, flash: seq<Page>, store: seq<Page>, limit: nat)
    requires Represents(slots, flash, store, limit)
    requires forall p :: 0 <= p < |store| && (exists i :: 0 <= i < |slots| && Holds(slots[i], p)) ==> flash[p] == store[p]
    ensures flash == store
  {
  }

  /** Bringing one block up to date keeps the representation and settles that block. */
  lemma BlockDone(slots: seq<Slot>, before: seq<Page>, after: seq<Page>, store: seq<Page>, limit: nat, block: nat, size: nat)
    requires Represents(slots, before, store, limit)
    requires Times(block, size) + size <= |store| && |after| == |before|
    requires Group(after, size, block) == Group(store, size, block)
    requires forall p :: 0 <= p < |after| && !(Times(block, size) <= p < Times(block, size) + size) ==> after[p] == before[p]
    ensures Represents(slots, after, store, limit)
    ensures forall p :: Times(block, size) <= p < Times(block, size) + size ==> after[p] == store[p]
  {
    forall p | Times(block, size) <= p < Times(block, size) + size
      ensures after[p] == store[p]
    {
      assert Group(after, size, block)[p - Times(block, size)] == Group(store, size, block)[p - Times(block, size)];
    }
    forall p | 0 <= p < |store| && store[p] != after[p]
      ensures exists i :: 0 <= i < |slots| && Holds(slots[i], p)
    {
      assert after[p] == before[p];
    }
  }

  /** The first `n` pages of the card are up to date. */
  ghost predicate Settled(flash: seq<Page>, store: seq<Page>, n: nat) {
    n <= |flash| == |store| && forall p :: 0 <= p < n ==> flash[p] == store[p]
  }

  lemma SettleOneMore(before: seq<Page>, after: seq<Page>, store: seq<Page>, n: nat, size: nat)
    requires Settled(before, store, n) && n + size <= |store| == |after|
    requires forall p :: n <= p < n + size ==> after[p] == store[p]
    requires forall p :: 0 <= p < |store| && !(n <= p < n + size) ==> after[p] == before[p]
    ensures Settled(after, store, n + size)
  {
  }

  class PageCache {
    const card: Card
    const slots: array<Slot>
    var initialized: bool
    var cardSizeBlocks: nat
    ghost var store: seq<Page>

    ghost predicate Valid()
      reads this, card, slots
    {
      && slots.Length == PAGE_CACHE_SIZE
      && card.Valid()
      && AllLen(store, card.pageLen)
      && Represents(slots[..], card.flash, store, Limit())
      && (!initialized ==> forall i :: 0 <= i < slots.Length ==> !slots[i].present)
    }

    /** The first page number that FlushPageCache never reaches. */
    ghost function Limit(): nat
      reads this, card
    {
      Times(cardSizeBlocks, card.pagesPerBlock)
    }

    constructor (card: Card)
      requires card.Valid()
      ensures Valid() && this.card == card && fresh(slots) && slots.Length == 128
      ensures !initialized && store == card.flash
    {
      this.card := card;
      slots := new Slot[PAGE_CACHE_SIZE](_ => Slot(0, [], false, false));
      initialized := false;
      cardSizeBlocks := 0;
      store := card.flash;
    }

    /** Sets every slot free, as DeinitPageCache and the end of a flush do. */
    method ClearSlots()
      modifies slots
      ensures forall i :: 0 <= i < slots.Length ==> slots[i].pageNum == 0 && !slots[i].present && !slots[i].dirty
    {
      for i := 0 to slots.Length
        invariant forall k :: 0 <= k < i ==> slots[k].pageNum == 0 && !slots[k].present && !slots[k].dirty
      {
        slots[i] := slots[i].(pageNum := 0, present := false, dirty := false);
      }
    }

    /** Starts caching; whatever was dirty before is dropped. */
    method InitPageCache() returns (result: int)
      requires Valid()
      modifies this, slots
      ensures Valid() && result == 0
      ensures initialized && cardSizeBlocks == Quot(|card.flash|, card.pagesPerBlock)
      ensures store == card.flash
    {
      ClearSlots();
      QuotRem(|card.flash|, card.pagesPerBlock);
      cardSizeBlocks := Quot(|card.flash|, card.pagesPerBlock);
      initialized := true;
      store := card.flash;
      return 0;
    }

    /** Appends to the flush list; the search has no bound of its own and relies on a free entry being there. */
    static method AddCacheBlockFlushList(list: array<FlushEntry>, ghost used: nat, blockPageOffset: int, buffer: Page)
      requires used < list.Length && blockPageOffset != NO_OFFSET
      requires forall e :: 0 <= e < list.Length ==> (list[e].blockPageOffset == NO_OFFSET <==> used <= e)
      modifies list
      ensures list[..] == old(list[..])[used := FlushEntry(blockPageOffset, buffer)]
    {
      var i := 0;
      while list[i].blockPageOffset != NO_OFFSET
        invariant 0 <= i <= used
        decreases used - i
      {
        i := i + 1;
      }
      list[i] := FlushEntry(blockPageOffset, buffer);
    }

    method FlushBlock(block: nat, list: seq<FlushEntry>) returns (result: int)
      requires card.Valid() && Times(block, card.pagesPerBlock) + card.pagesPerBlock <= |card.flash|
      requires forall e :: 0 <= e < |list| ==> 0 <= list[e].blockPageOffset < card.pagesPerBlock && |list[e].buffer| == card.pageLen
      modifies card
      ensures card.Valid() && result >= 0 && |card.flash| == |old(card.flash)|
      ensures Group(card.flash, card.pagesPerBlock, block) == Overlay(Group(old(card.flash), card.pagesPerBlock, block), list)
      ensures forall p :: 0 <= p < |card.flash| && !(Times(block, card.pagesPerBlock) <= p < Times(block, card.pagesPerBlock) + card.pagesPerBlock) ==>
                            card.flash[p] == old(card.flash)[p]
    {
      result := |list|;
      if |list| > 0 {
        var pageLen := card.pageLen;
        ghost var pages := Group(card.flash, card.pagesPerBlock, block);
        var buffer := ReadBlock(card, block);
        FlatLen(pages, pageLen);
        for i := 0 to |list|
          invariant unchanged(card)
          invariant AllLen(Overlay(pages, list[..i]), pageLen)
          invariant buffer == Flat(Overlay(pages, list[..i]))
          invariant |buffer| == Times(card.pagesPerBlock, pageLen)
        {
          assert list[..i + 1][..i] == list[..i];
          FlatSetPage(Overlay(pages, list[..i]), pageLen, list[i].blockPageOffset, list[i].buffer);
          buffer := SetPage(buffer, pageLen, list[i].blockPageOffset, list[i].buffer);
        }
        assert list[..|list|] == list;
        WriteBlock(card, block, buffer);
        FlatInjective(Group(card.flash, card.pagesPerBlock, block), Overlay(pages, list), pageLen);
        result := 0;
      }
    }

    /** Groups the dirty pages of one block into the flush list. */
    method CollectBlock(block: nat, list: array<FlushEntry>) returns (n: nat)
      requires Valid() && list.Length == card.pagesPerBlock
      modifies list
      ensures n <= list.Length && list[..n] == Pending(slots[..], block, card.pagesPerBlock)
    {
      hide Represents, Pending;
      var size := card.pagesPerBlock;
      PendingNone(block, size);
      for e := 0 to list.Length
        invariant forall k :: 0 <= k < e ==> list[k].blockPageOffset == NO_OFFSET
      {
        list[e] := FlushEntry(NO_OFFSET, []);
      }
      n := 0;
      for i := 0 to slots.Length
        invariant n <= list.Length && list[..n] == Pending(slots[..i], block, size)
        invariant forall e :: n <= e < list.Length ==> list[e].blockPageOffset == NO_OFFSET
      {
        ghost var before := Pending(slots[..i], block, size);
        PendingNext(slots[..], i, block, size);
        PendingRoom(slots[..], card.flash, store, Limit(), i + 1, block, size);
        if slots[i].present && slots[i].dirty && Quot(slots[i].pageNum, size) == block {
          ghost var was := list[..];
          assert forall e :: 0 <= e < n ==> was[e] == before[e];
          AddCacheBlockFlushList(list, n, slots[i].pageNum - Times(block, size), slots[i].buffer);
          n := n + 1;
        }
      }
      assert slots[..slots.Length] == slots[..];
    }

    /** Brings one block of the card up to date. */
    method FlushCollected(block: nat, list: array<FlushEntry>) returns (result: int)
      requires Valid() && block < cardSizeBlocks && list.Length == card.pagesPerBlock
      modifies list, card
      ensures Valid() && result >= 0
      ensures Times(block, card.pagesPerBlock) + card.pagesPerBlock <= |store|
      ensures forall p :: Times(block, card.pagesPerBlock) <= p < Times(block, card.pagesPerBlock) + card.pagesPerBlock ==>
                            card.flash[p] == store[p]
      ensures forall p :: 0 <= p < |store| && !(Times(block, card.pagesPerBlock) <= p < Times(block, card.pagesPerBlock) + card.pagesPerBlock) ==>
                            card.flash[p] == old(card.flash)[p]
    {
      ghost var size, was := card.pagesPerBlock, card.flash;
      var n := CollectBlock(block, list);
      ItemFits(block, cardSizeBlocks, size);
      BlockSettles(slots[..], card.flash, store, Limit(), block, size);
      PendingLen(slots[..], card.flash, store, Limit(), block, size, card.pageLen);
      result := FlushBlock(block, list[..n]);
      BlockDone(slots[..], was, card.flash, store, Limit(), block, size);
    }

    /** Writes every dirty page back, block by block, and empties the cache. */
    method FlushPageCache() returns (result: int)
      requires Valid()
      modifies this, slots, card
      ensures Valid() && result >= 0
      ensures store == old(store) && initialized == old(initialized) && cardSizeBlocks == old(cardSizeBlocks)
      ensures card.flash == store
      ensures forall i :: 0 <= i < slots.Length ==> !slots[i].present
    {
      result := 0;
      if initialized {
        var size := card.pagesPerBlock;
        var list := new FlushEntry[size](_ => FlushEntry(NO_OFFSET, []));
        ghost var done := 0;
        for block := 0 to cardSizeBlocks
          invariant Valid() && unchanged(this) && unchanged(slots) && fresh(list) && list.Length == size
          invariant result >= 0
          invariant done == Times(block, size)
          invariant Settled(card.flash, store, done)
        {
          ghost var was := card.flash;
          result := FlushCollected(block, list);
          SettleOneMore(was, card.flash, store, done, size);
          done := done + size;
        }
        FlushedMatches(slots[..], card.flash, store, Limit());
        ClearSlots();
      } else {
        FlushedMatches(slots[..], card.flash, store, Limit());
      }
    }

    /** The slot whose PageNum matches, or PAGE_CACHE_SIZE. */
    method FindPage(pageNum: nat) returns (i: nat)
      ensures i == Hit(slots[..], pageNum)
    {
      i := 0;
      while i < slots.Length && slots[i].pageNum != pageNum
        invariant 0 <= i <= slots.Length
        invariant forall k :: 0 <= k < i ==> slots[k].pageNum != pageNum
      {
        i := i + 1;
      }
    }

    /** The first slot with the EXISTS flag clear, or PAGE_CACHE_SIZE. */
    method FindFree() returns (i: nat)
      ensures i <= slots.Length
      ensures i < slots.Length ==> !slots[i].present
      ensures i == slots.Length ==> forall k :: 0 <= k < slots.Length ==> slots[k].present
    {
      i := 0;
      while i < slots.Length && slots[i].present
        invariant 0 <= i <= slots.Length
        invariant forall k :: 0 <= k < i ==> slots[k].present
      {
        i := i + 1;
      }
    }

    ghost predicate Uncached(pageNum: nat)
      reads slots
    {
      forall k :: 0 <= k < slots.Length ==> slots[k].pageNum != pageNum
    }

    /** A free slot, flushing first when there is none; the retry after a flush succeeds at once. */
    method MakeRoom(ghost pageNum: nat) returns (i: nat)
      requires Valid() && initialized && pageNum != 0 && Uncached(pageNum)
      modifies this, slots, card
      ensures Valid() && initialized && store == old(store) && cardSizeBlocks == old(cardSizeBlocks)
      ensures i < slots.Length && !slots[i].present && Uncached(pageNum)
    {
      i := FindFree();
      while i == PAGE_CACHE_SIZE
        invariant Valid() && initialized && store == old(store) && cardSizeBlocks == old(cardSizeBlocks)
        invariant i <= slots.Length && (i < slots.Length ==> !slots[i].present)
        invariant Uncached(pageNum)
        decreases i
      {
        var _ := FlushPageCache();
        assert slots[0] == slots[..][0];
        NoneCached(slots[..], card.flash, store, Limit(), pageNum);
        i := FindFree();
      }
    }

    /** Reads a page; the cache and the card go on standing for the same store. */
    method ReadPageCached(pageNum: nat) returns (buffer: Page)
      requires Valid() && 0 < pageNum < |store| && (initialized ==> pageNum < Limit())
      modifies this, slots, card
      ensures Valid() && initialized == old(initialized) && cardSizeBlocks == old(cardSizeBlocks)
      ensures store == old(store)
      ensures buffer == store[pageNum]
    {
      hide Represents;
      if initialized {
        var i := FindPage(pageNum);
        if i < PAGE_CACHE_SIZE {
          HitIsStored(slots[..], card.flash, store, Limit(), i);
          buffer := slots[i].buffer;
        } else {
          i := MakeRoom(pageNum);
          SameSize(slots[..], card.flash, store, Limit());
          buffer := card.McReadPage(pageNum);
          FillFree(slots[..], card.flash, store, Limit(), i, Slot(pageNum, buffer, true, false));
          ghost var was := slots[..];
          slots[i] := Slot(pageNum, buffer, true, false);
          assert slots[..] == was[i := Slot(pageNum, buffer, true, false)] && store[pageNum := buffer] == store;
        }
      } else {
        FlushedMatches(slots[..], card.flash, store, Limit());
        buffer := card.McReadPage(pageNum);
      }
    }

    /** Writes a page into the cache; without InitPageCache nothing is written. */
    method WritePageCached(pageNum: nat, buffer: Page) returns (result: int)
      requires Valid() && 0 < pageNum < |store| && (initialized ==> pageNum < Limit())
      requires |buffer| == card.pageLen
      modifies this, slots, card
      ensures Valid() && initialized == old(initialized) && cardSizeBlocks == old(cardSizeBlocks)
      ensures result == if initialized then 0 else -22
      ensures store == if initialized then old(store)[pageNum := buffer] else old(store)
    {
      result := 0;
      if initialized {
        var i := FindPage(pageNum);
        if i < PAGE_CACHE_SIZE {
          ChangeHeld(slots[..], card.flash, store, Limit(), i, buffer);
          slots[i] := slots[i].(buffer := buffer, dirty := true);
        } else {
          i := MakeRoom(pageNum);
          FillFree(slots[..], card.flash, store, Limit(), i, Slot(pageNum, buffer, true, true));
          slots[i] := Slot(pageNum, buffer, true, true);
        }
        store := store[pageNum := buffer];
      } else {
        result := -EINVAL;
      }
    }
  }

  lemma SameSize(slots: seq<Slot>, flash: seq<Page>, store: seq<Page>, limit: nat)
    requires Represents(slots, flash, store, limit)
    ensures |store| == |flash|
  {
  }

  lemma HitIsStored(slots: seq<Slot>, flash: seq<Page>, store: seq<Page>, limit: nat, i: nat)
    requires Represents(slots, flash, store, limit) && i < |slots| && slots[i].pageNum != 0
    ensures slots[i].pageNum < |store| && slots[i].buffer == store[slots[i].pageNum]
  {
  }

  lemma NoneCached(slots: seq<Slot>, flash: seq<Page>, store: seq<Page>, limit: nat, p: nat)
    requires Represents(slots, flash, store, limit) && p != 0
    requires forall i :: 0 <= i < |slots| ==> !slots[i].present
    ensures forall i :: 0 <= i < |slots| ==> slots[i].pageNum != p
  {
  }

  /** A page that is not cached can take any free slot: clean with the card's content, or dirty with a new one. */
  lemma FillFree(slots: seq<Slot>, flash: seq<Page>, store: seq<Page>, limit: nat, i: nat, s: Slot)
    requires Represents(slots, flash, store, limit)
    requires i < |slots| && !slots[i].present
    requires forall k :: 0 <= k < |slots| ==> slots[k].pageNum != s.pageNum
    requires s.present && 0 < s.pageNum < limit
    requires s.dirty || s.buffer == flash[s.pageNum]
    ensures Represents(slots[i := s], flash, store[s.pageNum := s.buffer], limit)
    ensures !s.dirty ==> s.buffer == store[s.pageNum]
  {
    var slots', store' := slots[i := s], store[s.pageNum := s.buffer];
    forall p | 0 <= p < |store'| && store'[p] != flash[p]
      ensures exists k :: 0 <= k < |slots'| && Holds(slots'[k], p)
    {
      if p == s.pageNum {
        assert Holds(slots'[i], p);
      } else {
        var k :| 0 <= k < |slots| && Holds(slots[k], p);
        assert Holds(slots'[k], p);
      }
    }
  }

  lemma ChangeHeld(slots: seq<Slot>, flash: seq<Page>, store: seq<Page>, limit: nat, i: nat, buffer: Page)
    requires Represents(slots, flash, store, limit)
    requires i < |slots| && slots[i].pageNum != 0
    ensures Represents(slots[i := slots[i].(buffer := buffer, dirty := true)], flash, store[slots[i].pageNum := buffer], limit)
  {
    var s := slots[i].(buffer := buffer, dirty := true);
    var slots', store' := slots[i := s], store[s.pageNum := buffer];
    forall p | 0 <= p < |store'| && store'[p] != flash[p]
      ensures exists k :: 0 <= k < |slots'| && Holds(slots'[k], p)
    {
      if p == s.pageNum {
        assert Holds(slots'[i], p);
      } else {
        var k :| 0 <= k < |slots| && Holds(slots[k], p);
        assert Holds(slots'[k], p);
      }
    }
  }

  /** What a lookup of page `p` finds is a page that is really there. */
  ghost predicate LookupSound(slots: seq<Slot>, p: nat) {
    Hit(slots, p) < |slots| ==> slots[Hit(slots, p)].present
  }

  /** A lookup can be trusted exactly for page numbers other than 0, the number every free slot carries. */
  lemma LookupSoundExactlyOffPageZero(p: nat)
    ensures p != 0 <==> forall slots, flash, store, limit: nat :: Represents(slots, flash, store, limit) ==> LookupSound(slots, p)
  {
    if p == 0 {
      var free := [Slot(0, [], false, false)];
      assert Represents(free, [], [], 0) && Hit(free, 0) == 0;
      assert !LookupSound(free, 0);
    }
  }
}
