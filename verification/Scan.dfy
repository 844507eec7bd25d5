/** The scan over the records of one directory (mctools.c, ScanThroughDirEnt). */
module DirectoryScan {
  import opened Constants
  import opened Arithmetic
  import opened Bytes
  import opened PageCaching
  import opened FatTable
  import opened Chains
  import opened Dirents
  import opened Directory

  /** Slot `j` of a directory is page `k` of cluster `c`. */
  ghost predicate Located(fs: Fs, cs: seq<nat>, j: nat, c: nat, k: nat) {
    k < fs.ppc && exists i :: 0 <= i < |cs| && cs[i] == c && InCluster(j, i, fs.ppc, k)
  }

  ghost predicate InCluster(j: nat, i: nat, ppc: nat, k: nat) {
    j == Times(i, ppc) + k
  }

  lemma NextCluster(recordID: nat, i: nat, ppc: nat, k: nat)
    requires 0 < recordID && InCluster(recordID - 1, i, ppc, k) && k + 1 == ppc
    ensures InCluster(recordID, i + 1, ppc, 0)
  {
  }

  /** The first page of data cluster `c`. */
  function PageNumOf(sb: Superblock, c: nat): nat {
    Times(sb.allocStart + c, sb.pagesPerCluster)
  }

  /** Reads page `k` of data cluster `c`. */
  method ReadDataPage(cache: PageCache, sb: Superblock, ghost c: nat, pageNum: nat, k: nat) returns (buffer: Page)
    requires Readable(cache, sb) && c < sb.clusters - sb.allocStart && k < sb.pagesPerCluster
    requires pageNum == PageNumOf(sb, c)
    modifies cache, cache.slots, cache.card
    ensures Readable(cache, sb) && cache.store == old(cache.store)
    ensures FsOk(View(cache.store, sb)) && buffer == ClusterPages(View(cache.store, sb), c)[k]
  {
    hide Represents, ClusterOf, FatCluster, FatEntry;
    ViewOk(cache.store, sb);
    DataPage(cache.store, sb, c, k);
    buffer := cache.ReadPageCached(pageNum + k);
  }

  lemma DataPage(store: seq<Page>, sb: Superblock, c: nat, k: nat)
    requires Layout(store, sb) && c < sb.clusters - sb.allocStart && k < sb.pagesPerCluster
    ensures 0 < PageNumOf(sb, c) + k < Times(sb.clusters, sb.pagesPerCluster) <= |store|
    ensures Times(c, sb.pagesPerCluster) + k < |Data(store, sb)|
    ensures store[PageNumOf(sb, c) + k] == Data(store, sb)[Times(c, sb.pagesPerCluster) + k]
  {
    hide FatCluster, ClusterOf, FatEntry, Times;
    ItemFits(sb.allocStart + c, sb.clusters, sb.pagesPerCluster);
    ItemFits(0, sb.allocStart + c, sb.pagesPerCluster);
    Distribute(sb.allocStart, c, sb.pagesPerCluster);
  }

  /** What a scan in mode 0 answers: the first existing record of that name among those it looks at. */
  ghost predicate FoundByName(fs: Fs, cs: seq<nat>, nRecords: nat, name: seq<byte>, result: int, c: nat, k: nat, buffer: Page)
    requires IsDir(fs, cs)
  {
    var rs := Slots(fs, cs);
    FsOkSlots(fs, cs);
    var m := Bound(rs, nRecords);
    var j := FindName(rs, m, name);
    if j < m then result == 0 && Located(fs, cs, j, c, k) && buffer == Pages(fs, cs)[j] else result == -ENOENT
  }

  /** What a scan in mode 1 answers: where a new record can go. */
  ghost predicate FoundPlace(fs: Fs, cs: seq<nat>, nRecords: nat, result: int, c: nat, k: nat, buffer: Page)
    requires IsDir(fs, cs)
  {
    var rs := Slots(fs, cs);
    FsOkSlots(fs, cs);
    match FindPlace(rs, fs.ppc, nRecords)
    case Deleted(j) => result == DELETED_SLOT && Located(fs, cs, j, c, k) && buffer == Pages(fs, cs)[j]
    case Slack(j) => result == SLACK_SLOT && Located(fs, cs, j, c, k) && buffer == Pages(fs, cs)[j]
    case NoPlace => result == -ENOENT
  }

  lemma FsOkSlots(fs: Fs, cs: seq<nat>)
    requires IsDir(fs, cs)
    ensures Slots(fs, cs) != []
  {
    ItemFits(0, |cs|, fs.ppc);
  }

  /** Every record before `recordID` was looked at and passed over. */
  ghost predicate Passed(rs: seq<Dirent>, recordID: nat, mode: nat, name: seq<byte>)
    requires recordID <= |rs|
  {
    forall k :: 0 <= k < recordID ==> if mode == 1 then Exists(rs[k]) else !(Exists(rs[k]) && Matches(name, rs[k]))
  }

  ghost predicate Answer(fs: Fs, cs: seq<nat>, mode: nat, nRecords: nat, name: seq<byte>, result: int, c: nat, k: nat, buffer: Page)
    requires IsDir(fs, cs)
  {
    if mode == 1 then FoundPlace(fs, cs, nRecords, result, c, k, buffer) else FoundByName(fs, cs, nRecords, name, result, c, k, buffer)
  }

  /** The scan can end at a record past the last one it looks at, ... */
  lemma AnswerAtEnd(fs: Fs, cs: seq<nat>, mode: nat, nRecords: nat, name: seq<byte>, recordID: nat, c: nat, k: nat, buffer: Page)
    requires IsDir(fs, cs) && Slots(fs, cs) != [] && recordID == Bound(Slots(fs, cs), nRecords)
    requires Passed(Slots(fs, cs), recordID, mode, name)
    requires mode != 1 || recordID == |Slots(fs, cs)| || Rem(recordID, fs.ppc) == 0
    ensures Answer(fs, cs, mode, nRecords, name, -ENOENT, c, k, buffer)
  {
  }

  /** ... in the slack behind it, ... */
  lemma AnswerInSlack(fs: Fs, cs: seq<nat>, nRecords: nat, name: seq<byte>, recordID: nat, c: nat, k: nat, buffer: Page)
    requires IsDir(fs, cs) && Slots(fs, cs) != [] && recordID == Bound(Slots(fs, cs), nRecords) < |Slots(fs, cs)|
    requires Passed(Slots(fs, cs), recordID, 1, name) && Rem(recordID, fs.ppc) != 0
    requires Located(fs, cs, recordID, c, k) && buffer == Pages(fs, cs)[recordID]
    ensures Answer(fs, cs, 1, nRecords, name, SLACK_SLOT, c, k, buffer)
  {
  }

  /** ... or at a record that is what the mode asks for. */
  lemma AnswerAtRecord(fs: Fs, cs: seq<nat>, mode: nat, nRecords: nat, name: seq<byte>, recordID: nat, c: nat, k: nat, buffer: Page)
    requires IsDir(fs, cs) && Slots(fs, cs) != [] && recordID < Bound(Slots(fs, cs), nRecords)
    requires Passed(Slots(fs, cs), recordID, mode, name)
    requires Located(fs, cs, recordID, c, k) && buffer == Pages(fs, cs)[recordID]
    requires if mode == 1 then !Exists(RecordOf(buffer)) else Exists(RecordOf(buffer)) && Matches(name, RecordOf(buffer))
    ensures Answer(fs, cs, mode, nRecords, name, if mode == 1 then DELETED_SLOT else 0, c, k, buffer)
  {
  }

  /** Moves on to the next page of the chain, or says that there is none. */
  method NextPage(cache: PageCache, sb: Superblock, ghost cs: seq<nat>, ghost recordID: nat, ghost at: nat,
                  pageNum: nat, logicalPageNum: nat, cluster: nat)
    returns (more: bool, pageNum': nat, logicalPageNum': nat, cluster': nat, ghost at': nat)
    requires Readable(cache, sb) && IsDir(View(cache.store, sb), cs)
    requires at < |cs| && cluster == cs[at] && pageNum == PageNumOf(sb, cluster) && logicalPageNum < sb.pagesPerCluster
    requires 0 < recordID && InCluster(recordID - 1, at, sb.pagesPerCluster, logicalPageNum)
    modifies cache, cache.slots, cache.card
    ensures Readable(cache, sb) && cache.store == old(cache.store)
    ensures more ==> at' < |cs| && cluster' == cs[at'] && pageNum' == PageNumOf(sb, cluster') && logicalPageNum' < sb.pagesPerCluster
    ensures more ==> InCluster(recordID, at', sb.pagesPerCluster, logicalPageNum')
    ensures !more ==> InCluster(recordID, |cs|, sb.pagesPerCluster, 0)
  {
    hide Represents, ClusterOf, FatCluster, FatEntry;
    more, pageNum', logicalPageNum', cluster', at' := true, pageNum, logicalPageNum + 1, cluster, at;
    if logicalPageNum' >= sb.pagesPerCluster {
      logicalPageNum' := 0;
    }
    if logicalPageNum' == 0 {
      var result, next := GetFatTableNextIndexData(cache, sb, cluster);
      NextInChain(View(cache.store, sb), cs, at);
      NextCluster(recordID, at, sb.pagesPerCluster, logicalPageNum);
      if result < 0 || next == END {
        more := false;
      } else {
        cluster', at' := next, at + 1;
        pageNum' := PageNumOf(sb, cluster');
      }
    }
  }

  method ScanThroughDirEnt(cache: PageCache, sb: Superblock, mode: nat, nRecordsGiven: nat, firstPage: nat, firstCluster: nat,
                           name: seq<byte>, ghost cs: seq<nat>)
    returns (result: int, pageNum: nat, logicalPageNum: nat, cluster: nat, buffer: Page)
    requires Readable(cache, sb) && FsOk(View(cache.store, sb)) && IsDir(View(cache.store, sb), cs)
    requires firstCluster == cs[0] && firstPage == PageNumOf(sb, firstCluster)
    modifies cache, cache.slots, cache.card
    ensures Readable(cache, sb) && cache.store == old(cache.store)
    ensures Answer(View(cache.store, sb), cs, mode, nRecordsGiven, name, result, cluster, logicalPageNum, buffer)
    ensures result >= 0 ==> pageNum == PageNumOf(sb, cluster)
  {
    hide Represents, ClusterOf, FatCluster, FatEntry, FindName, FindDeleted, Pages, ClusterPages;
    ghost var fs := View(cache.store, sb);
    ghost var rs := Slots(fs, cs);
    FsOkSlots(fs, cs);
    ghost var m, at := Bound(rs, nRecordsGiven), 0;
    var recordID, nRecords := 0, nRecordsGiven;
    result, pageNum, logicalPageNum, cluster, buffer := 0, firstPage, 0, firstCluster, [];
    while true
      invariant Readable(cache, sb) && cache.store == old(cache.store)
      invariant 0 <= at < |cs| && cluster == cs[at] && pageNum == PageNumOf(sb, cluster) && logicalPageNum < sb.pagesPerCluster
      invariant recordID == 0 ==> at == 0 && logicalPageNum == 0 && nRecords == nRecordsGiven
      invariant recordID > 0 ==> InCluster(recordID - 1, at, sb.pagesPerCluster, logicalPageNum)
      invariant recordID > 0 ==> nRecords == if nRecordsGiven < 1 then Length(rs[0]) else nRecordsGiven
      invariant recordID <= m && Passed(rs, recordID, mode, name)
      decreases |rs| - recordID
    {
      if recordID > 0 {
        var more;
        more, pageNum, logicalPageNum, cluster, at := NextPage(cache, sb, cs, recordID, at, pageNum, logicalPageNum, cluster);
        if !more {
          result := -ENOENT;
          AnswerAtEnd(fs, cs, mode, nRecordsGiven, name, recordID, cluster, logicalPageNum, buffer);
          return;
        }
      }
      assert InCluster(recordID, at, sb.pagesPerCluster, logicalPageNum);
      SlotAt(fs, cs, recordID, at, logicalPageNum);
      buffer := ReadDataPage(cache, sb, cluster, pageNum, logicalPageNum);
      if nRecords < 1 && recordID == 0 {
        nRecords := Length(RecordOf(buffer));
      }
      if recordID >= nRecords {
        if mode != 1 || Rem(recordID, sb.pagesPerCluster) == 0 {
          result := -ENOENT;
          AnswerAtEnd(fs, cs, mode, nRecordsGiven, name, recordID, cluster, logicalPageNum, buffer);
        } else {
          result := SLACK_SLOT;
          AnswerInSlack(fs, cs, nRecordsGiven, name, recordID, cluster, logicalPageNum, buffer);
        }
        return;
      }
      if !Exists(RecordOf(buffer)) && mode == 1 {
        result := DELETED_SLOT;
        AnswerAtRecord(fs, cs, mode, nRecordsGiven, name, recordID, cluster, logicalPageNum, buffer);
        return;
      }
      if !(mode == 1 || !Exists(RecordOf(buffer)) || !Matches(name, RecordOf(buffer))) {
        result := 0;
        AnswerAtRecord(fs, cs, mode, nRecordsGiven, name, recordID, cluster, logicalPageNum, buffer);
        return;
      }
      PassOne(rs, recordID, mode, name, nRecordsGiven);
      recordID := recordID + 1;
    }
  }

  lemma SlotAt(fs: Fs, cs: seq<nat>, j: nat, i: nat, k: nat)
    requires IsDir(fs, cs) && i < |cs| && k < fs.ppc && InCluster(j, i, fs.ppc, k)
    ensures Located(fs, cs, j, cs[i], k)
    ensures j < |Slots(fs, cs)| && Pages(fs, cs)[j] == ClusterPages(fs, cs[i])[k]
    ensures Slots(fs, cs)[j] == RecordOf(Pages(fs, cs)[j])
  {
    PagesAt(fs, cs, i, k);
  }

  lemma PassOne(rs: seq<Dirent>, recordID: nat, mode: nat, name: seq<byte>, nRecords: nat)
    requires recordID < |rs| && Passed(rs, recordID, mode, name)
    requires recordID < if nRecords < 1 then Length(rs[0]) else nRecords
    requires if mode == 1 then Exists(rs[recordID]) else !(Exists(rs[recordID]) && Matches(name, rs[recordID]))
    ensures recordID + 1 <= Bound(rs, nRecords) && Passed(rs, recordID + 1, mode, name)
  {
  }

  lemma NextInChain(fs: Fs, cs: seq<nat>, i: nat)
    requires IsDir(fs, cs) && i < |cs|
    ensures if i == |cs| - 1 then Masked(fs.fat[cs[i]]) == END else Masked(fs.fat[cs[i]]) == cs[i + 1]
  {
    assert i < |cs| - 1 ==> fs.fat[cs[i]] == Link(cs[i + 1]);
  }
}
