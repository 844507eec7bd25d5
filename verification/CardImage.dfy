/** Dumping a card to a file and restoring it from one, two banks at a time (system.c). */
module CardImage {
  import opened Constants
  import opened Arithmetic
  import opened Bytes
  import opened CardDevice
  import opened BlockIO
  import opened AsyncRpc

  const ERROR_SIDE_DST: bv32 := 0x4000
  const ERROR_SIDE_SRC: bv32 := 0x8000

  /**
   * The code marks the failing side by or-ing one of these bits to an error code. That tells the sides apart exactly if
   * the code has not got both bits set already, which every error code from -1 to -16384 has.
   */
  lemma SideIsLost(code: bv32)
    ensures code | ERROR_SIDE_SRC == code | ERROR_SIDE_DST <==> code & 0xC000 == 0xC000
    ensures 0xFFFF_C000 <= code ==> code | ERROR_SIDE_SRC == code == code | ERROR_SIDE_DST
  {
  }

  /** How a dump ended. */
  datatype Ending = Completed | ReadNotSent | ReadFailed | LoopWriteFailed | LastWriteFailed

  class HostFile {
    var contents: seq<byte>
    var at: nat
    /** How many accesses have failed for another reason than the end of the file. */
    ghost var faults: nat

    constructor (contents: seq<byte>)
      ensures this.contents == contents && at == 0 && faults == 0
    {
      this.contents, at, faults := contents, 0, 0;
    }

    /** fwrite appends the whole buffer, or fails after some part of it. */
    method Fwrite(data: seq<byte>) returns (ok: bool)
      modifies this`contents, this`faults
      ensures faults == old(faults) + if ok then 0 else 1
      ensures ok ==> contents == old(contents) + data
      ensures !ok ==> old(contents) <= contents <= old(contents) + data
    {
      var fails: bool := *;
      var part: int := *;
      ok := !(fails && 0 <= part < |data|);
      contents := contents + (if ok then data else data[..part]);
      faults := faults + if ok then 0 else 1;
    }

    /** fread fills the buffer with the next bytes, or finds too few of them. */
    method Fread(buffer: array<byte>) returns (ok: bool)
      modifies this`at, this`faults, buffer
      ensures faults == old(faults) + if ok || |contents| < old(at) + buffer.Length then 0 else 1
      ensures ok ==> old(at) + buffer.Length <= |contents|
                     && at == old(at) + buffer.Length && buffer[..] == contents[old(at)..at]
    {
      ok := at + buffer.Length <= |contents|;
      var fails: bool := *;
      if !ok || fails {
        faults := faults + if ok then 1 else 0;
        ok := false;
        Scribble(buffer);
      } else {
        forall i | 0 <= i < buffer.Length {
          buffer[i] := contents[at + i];
        }
        at := at + buffer.Length;
      }
    }
  }

  /** The first `k` groups of `size` pages, as one run of bytes. */
  function Image(pages: seq<Page>, size: nat, k: nat): seq<byte>
    requires Times(k, size) <= |pages|
  {
    Flat(pages[..Times(k, size)])
  }

  lemma ImageGrows(pages: seq<Page>, size: nat, k: nat)
    requires Times(k, size) + size <= |pages|
    ensures Image(pages, size, k + 1) == Image(pages, size, k) + Flat(Group(pages, size, k))
  {
    assert Times(k + 1, size) == Times(k, size) + size;
    assert pages[..Times(k + 1, size)] == pages[..Times(k, size)] + Group(pages, size, k);
    FlatAppend(pages[..Times(k, size)], Group(pages, size, k));
  }

  /** Group `k` of as many as fit lies inside the pages. */
  lemma GroupInside(pages: nat, size: nat, k: nat)
    requires 0 < size && k < Quot(pages, size)
    ensures Times(k, size) + size <= pages
  {
    QuotRem(pages, size);
    ItemFits(k, Quot(pages, size), size);
  }

  /** One pass of the dump's loop: a cluster is read into one bank while the other bank goes to the file. */
  method DumpCluster(rpc: McTools, file: HostFile, cluster: nat, size: nat, filling: array<byte>, full: array<byte>, early: bool)
    returns (result: int, ghost ending: Ending)
    requires rpc.Valid() && rpc.request == Nothing && filling != full
    requires rpc.Fits(Reading(cluster, size, filling))
    modifies rpc, rpc.card, file, filling
    ensures rpc.Valid() && rpc.card.flash == old(rpc.card.flash) && rpc.disturbed == old(rpc.disturbed)
    ensures (result == 0 || result == -5) && (result == 0 <==> ending == Completed) && ending != LastWriteFailed
    ensures result == 0 <==> rpc.faults == old(rpc.faults) && file.faults == old(file.faults)
    ensures old(rpc.faults) <= rpc.faults && old(file.faults) <= file.faults
    ensures rpc.request != Nothing <==> ending == LoopWriteFailed && !early
    ensures file.contents == old(file.contents) || 0 < cluster
    ensures old(file.contents) <= file.contents <= old(file.contents) + full[..]
    ensures ending == ReadNotSent ==> file.contents == old(file.contents)
    ensures ending == ReadFailed && 0 < cluster ==> file.contents == old(file.contents) + full[..]
    ensures ending == LoopWriteFailed ==> 0 < cluster
    ensures ending == Completed && 0 < cluster ==> file.contents == old(file.contents) + full[..]
    ensures ending == Completed ==> filling[..] == Flat(Group(rpc.card.flash, size, cluster))
  {
    ending := Completed;
    result := rpc.MCToolsReadCluster(cluster, size, filling);
    if result < 0 {
      return -EIO, ReadNotSent;
    }
    rpc.Elapse(early);
    if cluster > 0 {
      var ok := file.Fwrite(full[..]);
      if !ok {
        return -EIO, LoopWriteFailed;
      }
    }
    var _ := rpc.MCToolsSync(0);
    result := rpc.received;
    if result < 0 {
      return -EIO, ReadFailed;
    }
  }

  /**
   * `stop(i)` says whether the worker finds a stop command before cluster i, `early(i)` whether the read of cluster i
   * has been served by the time the file write beside it ends. `k` clusters are read, whatever the ending.
   */
  method DumpMemoryCard(rpc: McTools, file: HostFile, pagesPerCluster: nat, stop: nat -> bool, early: nat -> bool)
    returns (result: int, ghost k: nat, ghost ending: Ending)
    requires rpc.Valid() && rpc.request == Nothing && 0 < pagesPerCluster
    requires Times(pagesPerCluster, rpc.card.pageLen) < 0x1_0000
    modifies rpc, rpc.card, file
    ensures rpc.Valid() && rpc.card.flash == old(rpc.card.flash)
    ensures k <= Quot(|rpc.card.flash|, pagesPerCluster) && Times(k, pagesPerCluster) <= |rpc.card.flash|
    ensures forall i :: 0 <= i < k ==> !stop(i)
    ensures (result == 0 || result == -5) && (result == 0 <==> ending == Completed)
    ensures result == 0 <==> rpc.faults == old(rpc.faults) && file.faults == old(file.faults)
    ensures ending == Completed ==> k == Quot(|rpc.card.flash|, pagesPerCluster) || stop(k)
    ensures FileHolds(old(file.contents), file.contents, rpc.card.flash, pagesPerCluster, k, ending, Times(pagesPerCluster, rpc.card.pageLen))
    ensures rpc.request != Nothing <==> ending == LoopWriteFailed && !early(k)
    ensures rpc.disturbed == old(rpc.disturbed)
  {
    hide Flat, Image, Group, Dumped, FileHolds, McTools.Fits, McTools.PacketOf, Card.Valid;
    var card := rpc.card;
    var numClusters, clusterSizeBytes := Quot(|card.flash|, pagesPerCluster), Times(pagesPerCluster, card.pageLen);
    var buffer1, buffer2 := new byte[clusterSizeBytes], new byte[clusterSizeBytes];
    var bank := 0;
    var cluster := 0;
    result, k, ending := 0, 0, Completed;
    DumpStarts(file.contents, card.flash, pagesPerCluster, buffer2[..]);
    while cluster < numClusters
      invariant rpc.Valid() && rpc.request == Nothing && rpc.disturbed == old(rpc.disturbed)
      invariant card.flash == old(card.flash) && result == 0 && ending == Completed
      invariant rpc.faults == old(rpc.faults) && file.faults == old(file.faults)
      invariant 0 <= cluster == k <= numClusters && Times(k, pagesPerCluster) <= |card.flash|
      invariant forall i :: 0 <= i < k ==> !stop(i)
      invariant buffer1 != buffer2 && buffer1.Length == buffer2.Length == clusterSizeBytes && fresh(buffer1) && fresh(buffer2)
      invariant bank == 0 || bank == 1
      invariant Dumped(old(file.contents), file.contents, card.flash, pagesPerCluster, k, (if bank == 1 then buffer1 else buffer2)[..])
    {
      if stop(cluster) { break; }
      GroupInside(|card.flash|, pagesPerCluster, cluster);
      var filling, full := if bank == 0 then buffer1 else buffer2, if bank == 1 then buffer1 else buffer2;
      ghost var contents, held := file.contents, full[..];
      result, ending := DumpCluster(rpc, file, cluster, pagesPerCluster, filling, full, early(cluster));
      if result < 0 {
        HoldsAfter(old(file.contents), contents, held, file.contents, card.flash, pagesPerCluster, k, ending, clusterSizeBytes);
        break;
      }
      DumpedNext(old(file.contents), contents, card.flash, pagesPerCluster, k, held, file.contents, filling[..]);
      bank := if bank == 0 then 1 else 0;
      cluster, k := cluster + 1, k + 1;
    }
    if result >= 0 {
      ghost var contents, held := file.contents, (if bank == 1 then buffer1 else buffer2)[..];
      var ok := file.Fwrite((if bank == 1 then buffer1 else buffer2)[..]);
      if !ok {
        result, ending := -EIO, LastWriteFailed;
      }
      HoldsAfter(old(file.contents), contents, held, file.contents, card.flash, pagesPerCluster, k, ending, clusterSizeBytes);
    }
  }

  /** What the file has got of the first `k` clusters when a dump ends. */
  ghost predicate FileHolds(was: seq<byte>, contents: seq<byte>, flash: seq<Page>, size: nat, k: nat, ending: Ending, bankSize: nat) {
    if k == 0 then
      match ending
      case Completed => was <= contents && |contents| == |was| + bankSize
      case ReadNotSent | ReadFailed => contents == was
      case LoopWriteFailed => false
      case LastWriteFailed => was <= contents && |contents| <= |was| + bankSize
    else
      && Times(k - 1, size) <= Times(k, size) <= |flash|
      && var before, all := was + Image(flash, size, k - 1), was + Image(flash, size, k);
         match ending
         case Completed | ReadFailed => contents == all
         case ReadNotSent => contents == before
         case LoopWriteFailed | LastWriteFailed => before <= contents <= all
  }

  lemma HoldsAfter(was: seq<byte>, before: seq<byte>, bank: seq<byte>, contents: seq<byte>, flash: seq<Page>, size: nat, k: nat,
                   ending: Ending, bankSize: nat)
    requires Dumped(was, before, flash, size, k, bank) && Times(k, size) <= |flash| && |bank| == bankSize
    requires match ending
             case Completed => contents == before + bank
             case ReadNotSent => contents == before
             case ReadFailed => contents == if 0 < k then before + bank else before
             case LoopWriteFailed => 0 < k && before <= contents <= before + bank
             case LastWriteFailed => before <= contents <= before + bank
    ensures FileHolds(was, contents, flash, size, k, ending, bankSize)
  {
    hide Flat, Group, Image;
    DumpEnds(was, before, flash, size, k, bank);
  }

  /** The file `contents` has got all clusters but the latest, which is in the bank. */
  ghost predicate Dumped(was: seq<byte>, contents: seq<byte>, flash: seq<Page>, size: nat, k: nat, bank: seq<byte>) {
    if k == 0 then contents == was else
    Times(k - 1, size) + size <= |flash| && contents == was + Image(flash, size, k - 1) && bank == Flat(Group(flash, size, k - 1))
  }

  lemma DumpedNext(was: seq<byte>, contents: seq<byte>, flash: seq<Page>, size: nat, k: nat, bank: seq<byte>, contents': seq<byte>, bank': seq<byte>)
    requires Dumped(was, contents, flash, size, k, bank) && Times(k, size) + size <= |flash|
    requires contents' == (if 0 < k then contents + bank else contents) && bank' == Flat(Group(flash, size, k))
    ensures Dumped(was, contents', flash, size, k + 1, bank')
  {
    hide Flat, Group, Image;
    NoImage(flash, size);
    if 0 < k {
      ImageGrows(flash, size, k - 1);
      Regroup(was, Image(flash, size, k - 1), bank);
    }
  }

  lemma Regroup(x: seq<byte>, y: seq<byte>, z: seq<byte>)
    ensures x + (y + z) == x + y + z
  {
  }

  lemma DumpStarts(was: seq<byte>, flash: seq<Page>, size: nat, bank: seq<byte>)
    ensures Dumped(was, was, flash, size, 0, bank)
  {
  }

  lemma NoImage(flash: seq<Page>, size: nat)
    ensures Image(flash, size, 0) == []
  {
  }

  lemma DumpEnds(was: seq<byte>, contents: seq<byte>, flash: seq<Page>, size: nat, k: nat, bank: seq<byte>)
    requires Dumped(was, contents, flash, size, k, bank) && Times(k, size) <= |flash|
    ensures k == 0 ==> contents == was
    ensures 0 < k ==> Times(k - 1, size) <= |flash| && contents == was + Image(flash, size, k - 1) &&
                      contents + bank == was + Image(flash, size, k)
  {
    hide Flat, Group, Image;
    if 0 < k {
      ImageGrows(flash, size, k - 1);
      Regroup(was, Image(flash, size, k - 1), bank);
    }
  }

  /** What a restore starts from: the card's pages and shape, and the bytes left in the file. */
  datatype Restore = Restore(was: seq<Page>, pagesPerBlock: nat, pageLen: nat, data: seq<byte>) {
    function BlockBytes(): nat {
      Times(pagesPerBlock, pageLen)
    }

    /** `pages` holds the first `intact` blocks of the file, and has not been touched from block `touched` on. */
    ghost predicate Written(pages: seq<Page>, intact: nat, touched: nat) {
      && |pages| == |was| && intact <= touched && AllLen(pages, pageLen)
      && Times(intact, pagesPerBlock) <= |was| && Times(touched, pagesPerBlock) <= |was|
      && Times(intact, BlockBytes()) <= |data|
      && Image(pages, pagesPerBlock, intact) == data[..Times(intact, BlockBytes())]
      && pages[Times(touched, pagesPerBlock)..] == was[Times(touched, pagesPerBlock)..]
    }

    ghost predicate IsBlock(block: nat, bytes: seq<byte>) {
      Times(block, BlockBytes()) + BlockBytes() <= |data|
      && bytes == data[Times(block, BlockBytes())..Times(block, BlockBytes()) + BlockBytes()]
    }

    /** `k` blocks have been sent; the last one may still be under way, or may have failed. */
    ghost predicate Stage(r: Request, received: int, pages: seq<Page>, iop: seq<byte>, k: nat) {
      match r
      case Nothing => if k == 0 then Written(pages, 0, 0) else Written(pages, if received == 0 then k else k - 1, k)
      case Reading(_, _, _) => false
      case Writing(block) =>
        k > 0 && block == k - 1 && BlockBytes() <= |iop| && IsBlock(block, iop[..BlockBytes()]) && Written(pages, k - 1, k - 1)
    }

    /** Writing block `k` from the file carries the restored part one block on. */
    lemma BlockSettles(before: seq<Page>, after: seq<Page>, k: nat, bytes: seq<byte>)
      requires Written(before, k, k) && IsBlock(k, bytes) && AllLen(after, pageLen)
      requires Times(k, pagesPerBlock) + pagesPerBlock <= |before| && |bytes| == BlockBytes()
      requires BlockWritten(before, after, pageLen, pagesPerBlock, k, bytes)
      ensures Written(after, k + 1, k + 1)
    {
      hide Flat, AllLen;
      var first := Times(k, pagesPerBlock);
      assert after[..first] == before[..first];
      assert after[first + pagesPerBlock..] == before[first + pagesPerBlock..] == was[first + pagesPerBlock..];
      ImageGrows(after, pagesPerBlock, k);
      assert data[..Times(k + 1, BlockBytes())] == data[..Times(k, BlockBytes())] + bytes;
    }

    /** A write of block `k` that fails leaves the blocks before and behind it alone. */
    lemma BlockBreaks(before: seq<Page>, after: seq<Page>, k: nat)
      requires Written(before, k, k) && |after| == |before| && AllLen(after, pageLen)
      requires Times(k, pagesPerBlock) + pagesPerBlock <= |before|
      requires forall p :: 0 <= p < |before| && !(Times(k, pagesPerBlock) <= p < Times(k, pagesPerBlock) + pagesPerBlock) ==> after[p] == before[p]
      ensures Written(after, k, k + 1)
    {
      var first := Times(k, pagesPerBlock);
      assert after[..first] == before[..first];
      assert after[first + pagesPerBlock..] == before[first + pagesPerBlock..] == was[first + pagesPerBlock..];
    }
  }

  /** The worker has sent `k` blocks of a restore to a card whose buffers nobody has disturbed. */
  ghost predicate Sending(rpc: McTools, job: Restore, k: nat)
    reads rpc, rpc.card
  {
    && rpc.Valid() && !rpc.disturbed && rpc.card.pagesPerBlock == job.pagesPerBlock && rpc.card.pageLen == job.pageLen
    && |rpc.card.flash| == |job.was|
    && job.Stage(rpc.request, rpc.received, rpc.card.flash, rpc.iopBuffer, k)
  }

  /** MCToolsSync, with the part of the card that it settles. */
  method Settle(rpc: McTools, ghost job: Restore, ghost k: nat)
    requires Sending(rpc, job, k)
    modifies rpc, rpc.card
    ensures rpc.request == Nothing && Sending(rpc, job, k)
    ensures rpc.faults == old(rpc.faults) + if old(rpc.request) != Nothing && rpc.received < 0 then 1 else 0
    ensures k == 0 ==> rpc.received == old(rpc.received)
  {
    ghost var r, before, iop := rpc.request, rpc.card.flash, rpc.iopBuffer;
    var _ := rpc.MCToolsSync(0);
    if r != Nothing {
      if rpc.received == 0 {
        job.BlockSettles(before, rpc.card.flash, k - 1, iop[..job.BlockBytes()]);
      } else {
        job.BlockBreaks(before, rpc.card.flash, k - 1);
      }
    }
  }

  /** What is on the card once nothing is outstanding. */
  lemma Settled(rpc: McTools, job: Restore, k: nat)
    requires Sending(rpc, job, k) && rpc.request == Nothing
    ensures rpc.Valid() && !rpc.disturbed
    ensures rpc.received == 0 ==> job.Written(rpc.card.flash, k, k)
    ensures job.Written(rpc.card.flash, k, k) || (0 < k && job.Written(rpc.card.flash, k - 1, k))
  {
  }

  lemma RestOfFile(contents: seq<byte>, start: nat, a: nat, b: nat)
    requires a <= b && start + b <= |contents|
    ensures contents[start..][a..b] == contents[start + a..start + b]
  {
    assert forall k :: 0 <= k < b - a ==> contents[start..][a..b][k] == contents[start + a..start + b][k];
  }

  ghost predicate AtBlock(file: HostFile, start: nat, job: Restore, k: nat)
    reads file
  {
    start <= |file.contents| && file.contents[start..] == job.data && file.at == start + Times(k, job.BlockBytes())
  }

  /** One pass of the restore's loop: the next bank is filled, then the write before it awaited, then this one sent. */
  method RestoreBlock(rpc: McTools, file: HostFile, block: nat, buffer: array<byte>, ghost start: nat, ghost job: Restore)
    returns (result: int)
    requires Sending(rpc, job, block) && AtBlock(file, start, job, block)
    requires buffer.Length == job.BlockBytes() && Times(block, job.pagesPerBlock) + job.pagesPerBlock <= |job.was|
    requires if block == 0 then rpc.request == Nothing else rpc.request != Nothing
    modifies rpc, rpc.card, file`at, file`faults, buffer
    ensures (result == 0 || result == -5) && (result == 0 ==> rpc.request != Nothing)
    ensures result == 0 <==> rpc.faults == old(rpc.faults) && file.faults == old(file.faults)
                             && Times(block + 1, job.BlockBytes()) <= |job.data| && (block == 0 ==> old(rpc.received) == 0)
    ensures old(rpc.faults) <= rpc.faults && old(file.faults) <= file.faults
    ensures Sending(rpc, job, if result == 0 then block + 1 else block)
    ensures result == 0 ==> AtBlock(file, start, job, block + 1)
  {
    hide Flat;
    var ok := file.Fread(buffer);
    if !ok { return -EIO; }
    RestOfFile(file.contents, start, Times(block, job.BlockBytes()), Times(block, job.BlockBytes()) + job.BlockBytes());
    assert job.IsBlock(block, buffer[..]);
    Settle(rpc, job, block);
    result := rpc.received;
    if result < 0 { return -EIO; }
    result := rpc.MCToolsWriteBlock(block, buffer);
    if result < 0 { return -EIO; }
  }

  /**
   * `stop(i)` says whether the worker finds a stop command before block i. `k` blocks are sent to the card; `job` is what
   * the restore started from.
   */
  method RestoreMemoryCard(rpc: McTools, file: HostFile, stop: nat -> bool)
    returns (result: int, ghost k: nat, ghost job: Restore)
    requires rpc.Valid() && rpc.request == Nothing && !rpc.disturbed && file.at <= |file.contents|
    modifies rpc, rpc.card, file`at, file`faults
    ensures rpc.Valid() && rpc.request == Nothing && !rpc.disturbed
    ensures job == Restore(old(rpc.card.flash), rpc.card.pagesPerBlock, rpc.card.pageLen, file.contents[old(file.at)..])
    ensures k <= Quot(|job.was|, job.pagesPerBlock) && forall i :: 0 <= i < k ==> !stop(i)
    ensures result == 0 || result == -5
    ensures result == 0 ==> k == Quot(|job.was|, job.pagesPerBlock) || stop(k)
    ensures result == 0 ==> job.Written(rpc.card.flash, k, k)
    ensures result != 0 ==> job.Written(rpc.card.flash, k, k) || (0 < k && job.Written(rpc.card.flash, k - 1, k))
    ensures old(rpc.received) != 0 ==> result != 0 && k == 0
    ensures result == 0 ==> rpc.faults == old(rpc.faults) && file.faults == old(file.faults)
    ensures result != 0 && old(rpc.received) == 0 && rpc.faults == old(rpc.faults) && file.faults == old(file.faults) ==>
              k < Quot(|job.was|, job.pagesPerBlock) && |job.data| < Times(k + 1, job.BlockBytes())
  {
    hide Flat, Sending, Restore.Written, Restore.Stage;
    var card := rpc.card;
    var numBlocks, blockSize := Quot(|card.flash|, card.pagesPerBlock), Times(card.pagesPerBlock, card.pageLen);
    var buffer1, buffer2 := new byte[blockSize], new byte[blockSize];
    var bank := 0;
    var block := 0;
    ghost var start := file.at;
    job := Restore(card.flash, card.pagesPerBlock, card.pageLen, file.contents[file.at..]);
    Untouched(rpc, job);
    result, k := 0, 0;
    while block < numBlocks
      invariant 0 <= block == k <= numBlocks && forall i :: 0 <= i < k ==> !stop(i)
      invariant result == 0 && Sending(rpc, job, k) && AtBlock(file, start, job, k)
      invariant rpc.request == Nothing <==> k == 0
      invariant rpc.faults == old(rpc.faults) && file.faults == old(file.faults)
      invariant k == 0 ==> rpc.received == old(rpc.received)
      invariant 0 < k ==> old(rpc.received) == 0
    {
      if stop(block) { break; }
      GroupInside(|job.was|, job.pagesPerBlock, block);
      result := RestoreBlock(rpc, file, block, if bank == 0 then buffer1 else buffer2, start, job);
      if result < 0 { break; }
      bank := if bank == 0 then 1 else 0;
      block, k := block + 1, k + 1;
    }
    Settle(rpc, job, k);
    Settled(rpc, job, k);
    if result >= 0 {
      result := rpc.received;
      if result < 0 { result := -EIO; }
    }
  }

  /** PerformMemoryCardRestore: the requests before the worker's make sure that no old failure is taken for one of the restore. */
  method PerformMemoryCardRestore(rpc: McTools, file: HostFile, stop: nat -> bool)
    returns (result: int, ghost k: nat, ghost job: Restore)
    requires rpc.Valid() && rpc.request == Nothing && !rpc.disturbed && file.at <= |file.contents|
    modifies rpc, rpc.card, file`at, file`faults
    ensures rpc.Valid() && rpc.request == Nothing && !rpc.disturbed
    ensures job == Restore(old(rpc.card.flash), rpc.card.pagesPerBlock, rpc.card.pageLen, file.contents[old(file.at)..])
    ensures k <= Quot(|job.was|, job.pagesPerBlock) && forall i :: 0 <= i < k ==> !stop(i)
    ensures result <= 0
    ensures result == 0 ==> k == Quot(|job.was|, job.pagesPerBlock) || stop(k)
    ensures result == 0 ==> job.Written(rpc.card.flash, k, k)
    ensures result != 0 ==> job.Written(rpc.card.flash, k, k) || (0 < k && job.Written(rpc.card.flash, k - 1, k))
    ensures result == 0 ==> rpc.faults == old(rpc.faults) && file.faults == old(file.faults)
    ensures result != 0 && rpc.faults == old(rpc.faults) && file.faults == old(file.faults) ==>
              k < Quot(|job.was|, job.pagesPerBlock) && |job.data| < Times(k + 1, job.BlockBytes())
  {
    hide Flat;
    k, job := 0, Restore(rpc.card.flash, rpc.card.pagesPerBlock, rpc.card.pageLen, file.contents[file.at..]);
    Untouched(rpc, job);
    result := rpc.MCToolsGetMCInfo();
    if result < 0 { return; }
    var _ := rpc.MCToolsFlushMCMANClusterCache();
    assert rpc.received == 0;
    result, k, job := RestoreMemoryCard(rpc, file, stop);
  }

  lemma Untouched(rpc: McTools, job: Restore)
    requires rpc.Valid() && !rpc.disturbed && rpc.request == Nothing
    requires job.was == rpc.card.flash && job.pagesPerBlock == rpc.card.pagesPerBlock && job.pageLen == rpc.card.pageLen
    ensures Sending(rpc, job, 0)
  {
  }

  /** A full restore of a full dump gives the dumped pages, on a card that clusters and blocks both divide evenly. */
  lemma RestoredIsDumped(image: seq<Page>, clusterPages: nat, job: Restore, pages: seq<Page>)
    requires 0 < clusterPages && Rem(|image|, clusterPages) == 0
    requires 0 < job.pagesPerBlock && Rem(|image|, job.pagesPerBlock) == 0
    requires AllLen(image, job.pageLen) && |job.was| == |image|
    requires Times(Quot(|image|, clusterPages), clusterPages) <= |image|
    requires job.data == Image(image, clusterPages, Quot(|image|, clusterPages))
    requires job.Written(pages, Quot(|image|, job.pagesPerBlock), Quot(|image|, job.pagesPerBlock))
    ensures pages == image
  {
    var k := Quot(|image|, job.pagesPerBlock);
    QuotRem(|image|, clusterPages);
    QuotRem(|image|, job.pagesPerBlock);
    assert image[..|image|] == image && pages[..|pages|] == pages;
    assert Flat(pages) == job.data[..Times(k, job.BlockBytes())];
    FlatLen(image, job.pageLen);
    FlatLen(pages, job.pageLen);
    assert job.data[..|job.data|] == job.data;
    FlatInjective(pages, image, job.pageLen);
  }

  lemma {:induction false} ImageLength(pages: seq<Page>, size: nat, k: nat, pageLen: nat)
    requires AllLen(pages, pageLen) && Times(k, size) <= |pages|
    ensures |Image(pages, size, k)| == Times(k, Times(size, pageLen))
  {
    if k > 0 {
      ImageLength(pages, size, k - 1, pageLen);
      ImageGrows(pages, size, k - 1);
      FlatLen(Group(pages, size, k - 1), pageLen);
    }
  }

  /** A full dump holds every block of the card. */
  lemma DumpHoldsBlocks(image: seq<Page>, clusterPages: nat, pagesPerBlock: nat, pageLen: nat, k: nat)
    requires AllLen(image, pageLen) && 0 < clusterPages && 0 < pagesPerBlock
    requires Rem(|image|, clusterPages) == 0 && Rem(|image|, pagesPerBlock) == 0
    requires k < Quot(|image|, pagesPerBlock) && Times(Quot(|image|, clusterPages), clusterPages) <= |image|
    ensures Times(k + 1, Times(pagesPerBlock, pageLen)) <= |Image(image, clusterPages, Quot(|image|, clusterPages))|
  {
    var n := Quot(|image|, pagesPerBlock);
    QuotRem(|image|, clusterPages);
    QuotRem(|image|, pagesPerBlock);
    assert image[..|image|] == image;
    ImageLength(image, pagesPerBlock, n, pageLen);
    ItemLe(k + 1, n, Times(pagesPerBlock, pageLen));
  }

  predicate Never(i: nat) {
    false
  }

  /** A card dumped to a file and a card of the same shape restored from it, without a stop command. */
  method DumpThenRestore(source: McTools, target: McTools, pagesPerCluster: nat, early: nat -> bool)
    returns (dumped: int, restored: int, ghost fileFaults: nat)
    requires source.Valid() && source.request == Nothing && target.Valid() && target.request == Nothing && !target.disturbed
    requires source != target && source.card != target.card
    requires source.card.pageLen == target.card.pageLen && |source.card.flash| == |target.card.flash|
    requires 0 < pagesPerCluster && Times(pagesPerCluster, source.card.pageLen) < 0x1_0000
    requires Rem(|source.card.flash|, pagesPerCluster) == 0 && Rem(|source.card.flash|, target.card.pagesPerBlock) == 0
    requires pagesPerCluster <= |source.card.flash|
    modifies source, source.card, target, target.card
    ensures source.card.flash == old(source.card.flash)
    ensures dumped == 0 && restored == 0 ==> target.card.flash == source.card.flash
    ensures source.faults == old(source.faults) && target.faults == old(target.faults) && fileFaults == 0 ==>
              dumped == 0 && restored == 0
  {
    hide Flat;
    restored := 0;
    var file := new HostFile([]);
    ghost var n, ending;
    dumped, n, ending := DumpMemoryCard(source, file, pagesPerCluster, Never, early);
    fileFaults := file.faults;
    if dumped == 0 {
      var dump := new HostFile(file.contents);
      ghost var k, job;
      restored, k, job := PerformMemoryCardRestore(target, dump, Never);
      fileFaults := fileFaults + dump.faults;
      if k < Quot(|job.was|, job.pagesPerBlock) {
        DumpHoldsBlocks(source.card.flash, pagesPerCluster, job.pagesPerBlock, job.pageLen, k);
      }
      if restored == 0 {
        assert 0 < Quot(|source.card.flash|, pagesPerCluster);
        RestoredIsDumped(source.card.flash, pagesPerCluster, job, target.card.flash);
      }
    }
  }
}
