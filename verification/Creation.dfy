/** Reading, rewriting, creating and deleting directory records by path (mctools.c). */
module Creation {
  import opened Constants
  import opened Arithmetic
  import opened Bytes
  import opened PageCaching
  import opened FatTable
  import opened Chains
  import opened Dirents
  import opened Directory
  import opened DirectoryScan
  import opened RecordUpdate
  import opened Paths
  import opened Resolution
  import opened Files
  import opened SlotEdits
  import opened DirectoryTree
  import opened Placement
  import opened Growth
  import opened Appending
  import opened Uncounting
  import opened Allocation

  /** GetFileData: the record a path names. */
  method GetFileData(cache: PageCache, sb: Superblock, path: seq<byte>) returns (result: int, entry: Dirent)
    requires Usable(cache, sb)
    requires Components(path) != [] && !FromRoot(View(cache.store, sb), Components(path)).Broken?
    modifies cache, cache.slots, cache.card
    ensures Usable(cache, sb) && cache.store == old(cache.store)
    ensures var o := FromRoot(View(cache.store, sb), Components(path));
            if o.Missing? then result == -2 else result == 0 && entry == RecordAt(View(cache.store, sb), o)
  {
    hide Represents, ClusterOf, FatCluster, FatEntry, Pages, ClusterPages, Slots, SlotsFrom;
    var pageNum, logicalPageNum, cluster, buffer;
    result, pageNum, logicalPageNum, cluster, buffer := WalkPath(cache, sb, path);
    if result >= 0 {
      entry := RecordOf(buffer);
    } else {
      entry := seq(DIRENT_SIZE, _ => 0);
    }
  }

  /** The byte offset GetSetFileData hands to UpdateDirEntInformation. */
  function RecordOffset(sb: Superblock, pageNum: nat, logicalPageNum: nat, cluster: nat): (offset: nat)
    requires pageNum == PageNumOf(sb, cluster)
    ensures offset == Times(logicalPageNum, sb.pageLen)
  {
    Distribute(sb.allocStart, cluster, sb.pagesPerCluster);
    Times(pageNum + logicalPageNum - Times(sb.allocStart, sb.pagesPerCluster) - Times(cluster, sb.pagesPerCluster), sb.pageLen)
  }

  /** The card after slot `j` of the directory `cs` got the record `d`, by way of page `k` of cluster `c`. */
  ghost predicate SlotSet(fs: Fs, fs': Fs, cs: seq<nat>, j: nat, c: nat, k: nat, d: Dirent) {
    FsOk(fs) && c < fs.n && k < fs.ppc && Located(fs, cs, j, c, k) && fs' == SetRecord(fs, c, k, d)
  }

  /** Rewrites the record on the page a scan stopped at. */
  method SetAt(cache: PageCache, sb: Superblock, pageNum: nat, logicalPageNum: nat, cluster: nat, d: Dirent, ghost cs: seq<nat>, ghost j: nat)
    requires Readable(cache, sb) && IsDir(View(cache.store, sb), cs)
    requires Located(View(cache.store, sb), cs, j, cluster, logicalPageNum) && pageNum == PageNumOf(sb, cluster)
    modifies cache, cache.slots, cache.card
    ensures Readable(cache, sb)
    ensures SlotSet(View(old(cache.store), sb), View(cache.store, sb), cs, j, cluster, logicalPageNum, d)
  {
    hide Represents, ClusterOf, FatCluster, FatEntry, Pages, ClusterPages, Slots, SetRecord;
    var offset := RecordOffset(sb, pageNum, logicalPageNum, cluster);
    UpdateDirEntInformation(cache, sb, sb.allocStart + cluster, offset, d, logicalPageNum);
  }

  /** GetSetFileData in mode 0 with new data: rewrites the record the path names, if there is one. */
  method SetFileData(cache: PageCache, sb: Superblock, path: seq<byte>, d: Dirent) returns (result: int, ghost c: nat, ghost k: nat)
    requires Usable(cache, sb)
    requires Components(path) != []
    requires FromRoot(View(cache.store, sb), Components(path)).Found? || FromRoot(View(cache.store, sb), Components(path)).Missing?
    modifies cache, cache.slots, cache.card
    ensures Readable(cache, sb)
    ensures var fs := View(old(cache.store), sb);
            match FromRoot(fs, Components(path))
            case Found(dir, j) => result == 0 && SlotSet(fs, View(cache.store, sb), ChainOf(fs, dir), j, c, k, d)
            case _ => result == -2 && cache.store == old(cache.store)
  {
    hide Represents, ClusterOf, FatCluster, FatEntry, Pages, ClusterPages, Slots, SlotsFrom, SetRecord;
    ghost var fs := View(cache.store, sb);
    ghost var o := FromRoot(fs, Components(path));
    var pageNum, logicalPageNum, cluster, buffer;
    result, pageNum, logicalPageNum, cluster, buffer := WalkPath(cache, sb, path);
    c, k := cluster, logicalPageNum;
    if result >= 0 {
      RootStays(fs, o.dir, o.j, cluster, logicalPageNum, buffer);
      SetAt(cache, sb, pageNum, logicalPageNum, cluster, d, ChainOf(fs, o.dir), o.j);
    }
  }

  /** The first cluster and the length of the directory a path names. */
  ghost predicate NamesDir(fs: Fs, names: seq<Name>, e: nat, length: nat)
    requires names != []
  {
    var o := FromRoot(fs, names);
    o.Found? && HasChain(fs, e) && FirstCluster(RecordAt(fs, o)) == e && Length(RecordAt(fs, o)) == length
  }

  /** GetSetFileData in mode 1: puts a record into a free page of the directory a path names, if there is one. */
  method SetInFreePage(cache: PageCache, sb: Superblock, path: seq<byte>, d: Dirent, ghost e: nat, ghost length: nat)
    returns (result: int, ghost c: nat, ghost k: nat)
    requires Usable(cache, sb)
    requires Components(path) != [] && NamesDir(View(cache.store, sb), Components(path), e, length)
    modifies cache, cache.slots, cache.card
    ensures Readable(cache, sb)
    ensures var fs := View(old(cache.store), sb);
            match FindPlace(SlotsFrom(fs, e), fs.ppc, length)
            case Deleted(j) => result == 2 && SlotSet(fs, View(cache.store, sb), ChainOf(fs, e), j, c, k, d)
            case Slack(j) => result == 1 && SlotSet(fs, View(cache.store, sb), ChainOf(fs, e), j, c, k, d)
            case NoPlace => result == -2 && cache.store == old(cache.store)
  {
    hide Represents, ClusterOf, FatCluster, FatEntry, Pages, ClusterPages, Slots, SetRecord, FindPlace;
    ghost var fs := View(cache.store, sb);
    ghost var o := FromRoot(fs, Components(path));
    ghost var cs := ChainOf(fs, e);
    var pageNum, logicalPageNum, cluster, buffer;
    result, pageNum, logicalPageNum, cluster, buffer := WalkPath(cache, sb, path);
    RootStays(fs, o.dir, o.j, cluster, logicalPageNum, buffer);
    if cluster != 0 {
      cluster := FirstCluster(RecordOf(buffer));
      pageNum := PageNumOf(sb, cluster);
    }
    result, pageNum, logicalPageNum, cluster, buffer :=
      ScanThroughDirEnt(cache, sb, 1, Length(RecordOf(buffer)), pageNum, cluster, [], cs);
    c, k := cluster, logicalPageNum;
    if result >= 0 {
      ghost var place := FindPlace(Slots(fs, cs), fs.ppc, length);
      SetAt(cache, sb, pageNum, logicalPageNum, cluster, d, cs, place.j);
    }
  }

  /**
   * What adding a record does: it takes the place of the first deleted record, or else is appended, in a new cluster
   * only when every slot is taken; only then does the directory's length count up, and only with a new cluster does
   * the FAT change. No other record, chain or file changes.
   */
  ghost predicate Created(fs: Fs, t: Tree, fs': Fs, t': Tree, e: nat, d: Dirent) {
    && WellFormed(fs, t) && WellFormed(fs', t') && e in t.dirs && fs'.n == fs.n && |fs'.fat| == |fs.fat|
    && t'.files == t.files
    && (forall f :: f in t.files ==> Pages(fs', t.files[f]) == Pages(fs, t.files[f]))
    && match PlaceIn(fs, t, e)
       case Deleted(j) => t' == t && fs'.fat == fs.fat && Replacing(fs, t, fs', e, j, d)
       case Slack(_) => fs'.fat == fs.fat && Extending(fs, t, fs', t', e, d, [])
       case NoPlace => FirstFree(fs.fat) < fs.n && fs'.fat == Appended(fs.fat, LastOf(t, e), FirstFree(fs.fat)) &&
                       Extending(fs, t, fs', t', e, d, [FirstFree(fs.fat)])
  }

  ghost function LastOf(t: Tree, e: nat): nat
    requires e in t.dirs
  {
    var cs := t.dirs[e].clusters;
    if cs == [] then 0 else cs[|cs| - 1]
  }

  lemma CreatedInDeleted(fs: Fs, t: Tree, fs': Fs, e: nat, j: nat, c: nat, k: nat, d: Dirent)
    requires WellFormed(fs, t) && e in t.dirs && PlaceIn(fs, t, e) == Deleted(j) && Addable(t, d)
    requires SlotSet(fs, fs', t.dirs[e].clusters, j, c, k, d)
    ensures Created(fs, t, fs', t, e, d)
  {
    hide SetRecord, Slots, Pages, RecordsOk, HomeOk, FirstOk, FindPlace, Exists, Length, FirstCluster, IsChain;
    PlaceIs(fs, t, e);
    EditSlot(fs, t, e, j, c, k, d);
    forall x | x in t.dirs
      ensures Entries(fs', t, x) == Replaced(fs, t, e, j, d, x)
    {
      TakeUpdate(DirSlots(fs, t, e), j, d, t.dirs[e].length);
    }
    ReplaceWellFormed(fs, t, fs', e, j, d);
  }

  /** The directory a path leads to, by way of the record that keeps its length. */
  ghost predicate LeadsHome(fs: Fs, t: Tree, names: seq<Name>, e: nat) {
    && WellFormed(fs, t) && names != [] && OnDirs(fs, t, names, 0, 0) && e in t.dirs
    && Find(fs, t, names, 0, 0) == Found(t.dirs[e].homeDir, t.dirs[e].homeSlot)
  }

  /** The directory a path leads to, by way of record `s` of directory `q`, which need not be the one that keeps its length. */
  ghost predicate Leads(fs: Fs, t: Tree, names: seq<Name>, e: nat, q: nat, s: nat) {
    && WellFormed(fs, t) && names != [] && OnDirs(fs, t, names, 0, 0) && e in t.dirs
    && Find(fs, t, names, 0, 0) == Found(q, s) && FirstCluster(Entries(fs, t, q)[s]) == e
  }

  /** Record `s` of directory `q` keeps the length of directory `e`. */
  predicate AtHome(t: Tree, e: nat, q: nat, s: nat)
    requires e in t.dirs
  {
    q == t.dirs[e].homeDir && s == t.dirs[e].homeSlot
  }

  /** The length that CreateNewVirtualDirent takes the directory to have. */
  function TakenLength(t: Tree, e: nat, q: nat, s: nat): nat
    requires e in t.dirs
  {
    if AtHome(t, e, q, s) then t.dirs[e].length else 0
  }

  lemma LeadsResolves(fs: Fs, t: Tree, names: seq<Name>, e: nat, q: nat, s: nat)
    requires Leads(fs, t, names, e, q, s)
    ensures q in t.dirs && s < t.dirs[q].length
    ensures var o := FromRoot(fs, names);
            && o == Found(q, s) && RecordAt(fs, o) == Entries(fs, t, q)[s]
            && ChainOf(fs, q) == t.dirs[q].clusters
    ensures HasChain(fs, e) && ChainOf(fs, e) == t.dirs[e].clusters && SlotsFrom(fs, e) == DirSlots(fs, t, e)
    ensures RootSelf(fs)
  {
    hide RecordsOk, HomeOk, FirstOk, Length, FirstCluster, Exists, OnDirs, Find;
    ResolveIsFind(fs, t, names, 0, 0);
    DirChain(fs, t, e);
    DirChain(fs, t, q);
    RootIsSelf(fs, t);
  }

  lemma DirChain(fs: Fs, t: Tree, x: nat)
    requires WellFormed(fs, t) && x in t.dirs
    ensures HasChain(fs, x) && ChainOf(fs, x) == t.dirs[x].clusters && SlotsFrom(fs, x) == DirSlots(fs, t, x)
    ensures t.dirs[x].length <= |DirSlots(fs, t, x)| && SlotsFrom(fs, x)[..t.dirs[x].length] == Entries(fs, t, x)
  {
    hide RecordsOk, HomeOk, FirstOk;
    ChainOfIs(fs, x, t.dirs[x].clusters);
    EntriesAreFirst(fs, t, x);
  }

  /** Only the home record says how long the directory is. */
  lemma LeadsLength(fs: Fs, t: Tree, names: seq<Name>, e: nat, q: nat, s: nat)
    requires Leads(fs, t, names, e, q, s)
    ensures Length(Entries(fs, t, q)[s]) == TakenLength(t, e, q, s) && Given(t, e, TakenLength(t, e, q, s))
    ensures HomeOk(fs, t, e) && t.dirs[e].length + 1 < U32_RANGE
  {
    hide ChainsOk, LengthsOk, FirstOk, Entries, Length, FirstCluster, Exists, OnDirs;
    assert HomeOk(fs, t, e);
    LengthFits(fs, t, e);
    assert RecordOk(t, q, s, Entries(fs, t, q)[s]);
    DirInRange(fs, t, e);
    DirIsNoFile(fs, t, e);
  }

  lemma DirIsNoFile(fs: Fs, t: Tree, e: nat)
    requires ChainsOk(fs, t) && e in t.dirs
    ensures e !in t.files
  {
    hide Free;
    forall f | f in t.files
      ensures f != e
    {
      assert Disjoint(t.dirs[e].clusters, t.files[f]);
      assert t.dirs[e].clusters[0] == e && t.files[f][0] == f;
    }
  }

  lemma HomeLeads(fs: Fs, t: Tree, names: seq<Name>, e: nat)
    requires LeadsHome(fs, t, names, e)
    ensures Leads(fs, t, names, e, t.dirs[e].homeDir, t.dirs[e].homeSlot)
  {
    assert HomeOk(fs, t, e);
  }

  /** Where a scan that is given `n` as the directory's length finds a place for a record. */
  ghost function SeenPlace(fs: Fs, t: Tree, e: nat, n: nat): Place
    requires WellFormed(fs, t) && e in t.dirs
  {
    FindPlace(DirSlots(fs, t, e), fs.ppc, n)
  }

  /** With a length of 0 the scan sees nothing, unless the directory keeps its own length. */
  lemma SeenPlaceIs(fs: Fs, t: Tree, e: nat, n: nat)
    requires WellFormed(fs, t) && e in t.dirs && Given(t, e, n)
    ensures SeenPlace(fs, t, e, n) == if Sees(fs, t, e, n) then PlaceIn(fs, t, e) else NoPlace
  {
    hide ChainsOk, RecordsOk, HomeOk, Exists;
    assert FirstOk(fs, t, e);
    HasFirst(fs, t, e);
    EntriesAreFirst(fs, t, e);
    assert Entries(fs, t, e)[0] == DirSlots(fs, t, e)[0];
    QuotUnique(0, fs.ppc, 0, 0);
  }

  lemma LengthFits(fs: Fs, t: Tree, e: nat)
    requires Sound(fs, t) && e in t.dirs
    ensures t.dirs[e].length + 1 < U32_RANGE
  {
    ChainNoDup(fs.fat, fs.n, t.dirs[e].clusters);
    ItemLe(|t.dirs[e].clusters|, fs.n, fs.ppc);
    assert Fits(t.dirs[e], fs.ppc);
  }

  /** The record is written behind the last one, but its directory does not count it yet. */
  ghost predicate Uncounted(fs: Fs, t: Tree, fs1: Fs, t': Tree, e: nat, d: Dirent) {
    && WellFormed(fs, t) && e in t.dirs && |fs1.fat| == |fs.fat|
    && Midway(fs, t, fs1, t', e, d)
    && match PlaceIn(fs, t, e)
       case Deleted(_) => false
       case Slack(_) => t' == Grown(t, e, []) && fs1.fat == fs.fat
       case NoPlace => FirstFree(fs.fat) < fs.n && t' == Grown(t, e, [FirstFree(fs.fat)]) &&
                       fs1.fat == Appended(fs.fat, LastOf(t, e), FirstFree(fs.fat))
  }

  lemma CreatedAtEnd(fs: Fs, t: Tree, fs1: Fs, t': Tree, fs2: Fs, e: nat, d: Dirent, c: nat, k: nat)
    requires Uncounted(fs, t, fs1, t', e, d) && HomeOk(fs, t, e) && t.dirs[e].length + 1 < U32_RANGE && Addable(t, d)
    requires var p, j := t.dirs[e].homeDir, t.dirs[e].homeSlot;
             SlotSet(fs1, fs2, t'.dirs[p].clusters, j, c, k, WithLength(Entries(fs, t, p)[j], t.dirs[e].length + 1))
    ensures Created(fs, t, fs2, t', e, d)
  {
    hide SetRecord, Slots, Pages, RecordsOk, FirstOk, FindPlace, Exists, Length, FirstCluster, IsChain, Appended, Entries;
    var more := if PlaceIn(fs, t, e).Slack? then [] else [FirstFree(fs.fat)];
    CountAtHome(fs, t, fs1, t', e, d, more, c, k);
  }

  lemma UncountedInSlack(fs: Fs, t: Tree, fs1: Fs, e: nat, d: Dirent, c: nat, k: nat)
    requires WellFormed(fs, t) && e in t.dirs && PlaceIn(fs, t, e).Slack?
    requires SlotSet(fs, fs1, t.dirs[e].clusters, PlaceIn(fs, t, e).j, c, k, d)
    ensures Uncounted(fs, t, fs1, Grown(t, e, []), e, d)
  {
    hide Slots, Pages, RecordsOk, HomeOk, FirstOk, FindPlace, Exists, Length, FirstCluster, IsChain, Entries;
    PlaceIs(fs, t, e);
    WriteInSlack(fs, t, e, c, k, d);
  }

  lemma UncountedInNewCluster(fs: Fs, t: Tree, hooked: Fs, fs1: Fs, e: nat, d: Dirent)
    requires WellFormed(fs, t) && e in t.dirs && PlaceIn(fs, t, e).NoPlace? && FirstFree(fs.fat) < |fs.fat|
    requires hooked == fs.(fat := Appended(fs.fat, LastOf(t, e), FirstFree(fs.fat))) && FsOk(hooked)
    requires FirstFree(fs.fat) < fs.n ==> fs1 == SetRecord(hooked, FirstFree(fs.fat), 0, d)
    ensures FirstFree(fs.fat) < fs.n
    ensures Uncounted(fs, t, fs1, Grown(t, e, [FirstFree(fs.fat)]), e, d)
  {
    hide Slots, Pages, RecordsOk, HomeOk, FirstOk, FindPlace, Exists, Length, FirstCluster, Entries;
    FreeIsUsable(fs, t);
    assert Heads(fs, e, t.dirs[e].clusters);
    WriteInNewCluster(fs, t, e, FirstFree(fs.fat), d, hooked, Grown(t, e, [FirstFree(fs.fat)]));
  }

  lemma FreeIsUsable(fs: Fs, t: Tree)
    requires WellFormed(fs, t) && FirstFree(fs.fat) < |fs.fat|
    ensures 0 < FirstFree(fs.fat) < fs.n
  {
    assert Heads(fs, 0, t.dirs[0].clusters);
    ChainAllocated(fs.fat, fs.n, t.dirs[0].clusters, 0);
  }

  lemma DirIsChain(fs: Fs, t: Tree, e: nat)
    requires ChainsOk(fs, t) && e in t.dirs
    ensures IsDir(fs, t.dirs[e].clusters) && t.dirs[e].clusters[0] == e
    ensures LastOf(t, e) == t.dirs[e].clusters[|t.dirs[e].clusters| - 1] < |fs.fat|
  {
    assert Heads(fs, e, t.dirs[e].clusters);
  }

  /** The record is on the first page of a cluster hooked behind those of directory `e`. */
  ghost predicate InNewCluster(fs: Fs, t: Tree, fs1: Fs, e: nat, d: Dirent) {
    && FsOk(fs) && e in t.dirs && LastOf(t, e) < |fs.fat| && FirstFree(fs.fat) < fs.n
    && var hooked := fs.(fat := Appended(fs.fat, LastOf(t, e), FirstFree(fs.fat)));
       FsOk(hooked) && fs1 == SetRecord(hooked, FirstFree(fs.fat), 0, d)
  }

  /** Allocates a cluster for a directory in which the scan has seen no place, and puts the record on its first page. */
  method PutInNewCluster(cache: PageCache, sb: Superblock, parent: Dirent, d: Dirent, ghost t: Tree, ghost e: nat) returns (result: int)
    requires Readable(cache, sb) && WellFormed(View(cache.store, sb), t) && e in t.dirs && FirstCluster(parent) == e
    requires FirstFree(Fat(cache.store, sb)) < sb.clusters
    modifies cache, cache.slots, cache.card
    ensures Readable(cache, sb) && result == 0
    ensures InNewCluster(View(old(cache.store), sb), t, View(cache.store, sb), e, d)
  {
    hide Represents, ClusterOf, FatCluster, FatEntry, Pages, ClusterPages, Slots, SetRecord, FindPlace, RecordsOk, HomeOk, FirstOk,
         Entries, ChainsOk, LengthsOk, FirstFree, IsChain, Appended;
    ghost var fs := View(cache.store, sb);
    FreeIsUsable(fs, t);
    DirIsChain(fs, t, e);
    result := 0;
    var targetCluster := AddFATRecord(cache, sb, FirstCluster(parent), t.dirs[e].clusters);
    if targetCluster == 0 {
      result := -ENOMEM;
    }
    targetCluster := (targetCluster + sb.allocStart) % U32_RANGE;
    ViewOk(cache.store, sb);
    if result >= 0 {
      UpdateDirEntInformation(cache, sb, targetCluster, 0, d, 0);
    }
  }

  /** The card after the first half of CreateNewVirtualDirent, which takes `n` for the directory's length. */
  ghost predicate Placed(fs: Fs, t: Tree, fs1: Fs, e: nat, n: nat, d: Dirent, c: nat, k: nat) {
    && WellFormed(fs, t) && e in t.dirs
    && match SeenPlace(fs, t, e, n)
       case Deleted(j) => SlotSet(fs, fs1, t.dirs[e].clusters, j, c, k, d)
       case Slack(j) => SlotSet(fs, fs1, t.dirs[e].clusters, j, c, k, d)
       case NoPlace => InNewCluster(fs, t, fs1, e, d)
  }

  /** First half: the record goes into a free page, or into a new cluster. */
  method PutRecord(cache: PageCache, sb: Superblock, path: seq<byte>, parent: Dirent, d: Dirent,
                   ghost t: Tree, ghost e: nat, ghost q: nat, ghost s: nat) returns (result: int, ghost c: nat, ghost k: nat)
    requires Readable(cache, sb) && Leads(View(cache.store, sb), t, Components(path), e, q, s) && parent == Entries(View(cache.store, sb), t, q)[s]
    requires SeenPlace(View(cache.store, sb), t, e, Length(parent)).NoPlace? ==> FirstFree(Fat(cache.store, sb)) < sb.clusters
    modifies cache, cache.slots, cache.card
    ensures Readable(cache, sb) && Placed(View(old(cache.store), sb), t, View(cache.store, sb), e, Length(parent), d, c, k)
    ensures match SeenPlace(View(old(cache.store), sb), t, e, Length(parent))
            case Deleted(_) => result == DELETED_SLOT
            case Slack(_) => result == SLACK_SLOT
            case NoPlace => result == 0
  {
    hide Represents, ClusterOf, FatCluster, FatEntry, Pages, ClusterPages, Slots, SetRecord, FindPlace, RecordsOk, HomeOk, FirstOk,
         Entries, IsChain, OnDirs, Find, LengthsOk, FirstFree, InNewCluster;
    LeadsResolves(View(cache.store, sb), t, Components(path), e, q, s);
    result, c, k := SetInFreePage(cache, sb, path, d, e, Length(parent));
    if result < 0 {
      result := PutInNewCluster(cache, sb, parent, d, t, e);
    }
  }

  /** Second half: the length in the record that the path names is counted up. */
  method CountRecord(cache: PageCache, sb: Superblock, path: seq<byte>, parent: Dirent,
                     ghost fs: Fs, ghost t: Tree, ghost t1: Tree, ghost e: nat, ghost q: nat, ghost s: nat)
    returns (result: int, ghost c: nat, ghost k: nat)
    requires Readable(cache, sb) && Leads(fs, t, Components(path), e, q, s) && Beyond(fs, t, View(cache.store, sb), t1)
    requires Length(parent) + 1 < U32_RANGE
    modifies cache, cache.slots, cache.card
    ensures Readable(cache, sb) && result == 0 && q in t1.dirs
    ensures SlotSet(View(old(cache.store), sb), View(cache.store, sb), t1.dirs[q].clusters, s, c, k, WithLength(parent, Length(parent) + 1))
  {
    hide Represents, ClusterOf, FatCluster, FatEntry, Pages, ClusterPages, Slots, SetRecord, FindPlace, RecordsOk, HomeOk,
         FirstOk, Entries, IsChain, OnDirs, Find, LengthsOk, SlotsFrom, Components, Length, FirstCluster;
    ghost var names, fs1 := Components(path), View(cache.store, sb);
    LeadsResolves(fs, t, names, e, q, s);
    BeyondSteady(fs, t, fs1, t1);
    ResolveSteady(fs, t, fs1, names, 0, 0);
    BeyondChain(fs, t, fs1, t1, q);
    result, c, k := SetFileData(cache, sb, path, WithLength(parent, Length(parent) + 1));
  }

  /** The directories before the second half: with a new cluster, but not with a new record. */
  ghost function Between(fs: Fs, t: Tree, e: nat, n: nat): (t1: Tree)
    requires WellFormed(fs, t) && e in t.dirs
  {
    if SeenPlace(fs, t, e, n).NoPlace? then Widened(t, e, FirstFree(fs.fat)) else t
  }

  /** The slot the record is written to. */
  ghost function WrittenAt(fs: Fs, t: Tree, e: nat, n: nat): nat
    requires WellFormed(fs, t) && e in t.dirs
  {
    match SeenPlace(fs, t, e, n)
    case Deleted(j) => j
    case Slack(j) => j
    case NoPlace => |DirSlots(fs, t, e)|
  }

  /** The record is in a slot that its directory does not count. */
  ghost predicate Behind(fs: Fs, t: Tree, fs1: Fs, t1: Tree, e: nat, at: nat, d: Dirent) {
    && e in t.dirs && e in t1.dirs && FsOk(fs1) && ChainsOk(fs1, t1)
    && t.dirs[e].length <= at < |DirSlots(fs1, t1, e)| && DirSlots(fs1, t1, e)[at] == d
  }

  lemma PlacedBeyond(fs: Fs, t: Tree, fs1: Fs, e: nat, n: nat, d: Dirent, c: nat, k: nat)
    requires Placed(fs, t, fs1, e, n, d, c, k) && Given(t, e, n) && !SeenPlace(fs, t, e, n).Deleted?
    ensures Beyond(fs, t, fs1, Between(fs, t, e, n)) && Behind(fs, t, fs1, Between(fs, t, e, n), e, WrittenAt(fs, t, e, n), d)
  {
    hide ChainsOk, LengthsOk, SetRecord, Slots, Pages, RecordsOk, HomeOk, FirstOk, FindPlace, Exists, Length, FirstCluster, IsChain, Entries;
    SeenPlaceIs(fs, t, e, n);
    if SeenPlace(fs, t, e, n).Slack? {
      PlaceIs(fs, t, e);
      BeyondInSlack(fs, t, e, c, k, d);
    } else {
      var free := FirstFree(fs.fat);
      DirIsChain(fs, t, e);
      BeyondWidened(fs, t, e, free, d, fs.(fat := Appended(fs.fat, LastOf(t, e), free)));
    }
  }

  /** The directories when all is done. */
  ghost function Counted(fs: Fs, t: Tree, e: nat): (t': Tree)
    requires WellFormed(fs, t) && e in t.dirs
  {
    match PlaceIn(fs, t, e)
    case Deleted(_) => t
    case Slack(_) => Grown(t, e, [])
    case NoPlace => Grown(t, e, [FirstFree(fs.fat)])
  }

  /** Counted at its home, the record makes the card well-formed again. */
  lemma CreatedAtHome(fs: Fs, t: Tree, fs1: Fs, fs2: Fs, e: nat, d: Dirent, c: nat, k: nat, c2: nat, k2: nat)
    requires e in t.dirs && Placed(fs, t, fs1, e, t.dirs[e].length, d, c, k) && !PlaceIn(fs, t, e).Deleted? && Addable(t, d)
    requires HomeOk(fs, t, e) && t.dirs[e].length + 1 < U32_RANGE
    requires var p, j := t.dirs[e].homeDir, t.dirs[e].homeSlot;
             p in Between(fs, t, e, t.dirs[e].length).dirs &&
             SlotSet(fs1, fs2, Between(fs, t, e, t.dirs[e].length).dirs[p].clusters, j, c2, k2, WithLength(Entries(fs, t, p)[j], t.dirs[e].length + 1))
    ensures Created(fs, t, fs2, Counted(fs, t, e), e, d)
  {
    hide SetRecord, Slots, Pages, RecordsOk, HomeOk, FirstOk, LengthsOk, FindPlace, Exists, Length, FirstCluster, IsChain, Appended, Entries, Uncounted,
         Created;
    var free := FirstFree(fs.fat);
    if PlaceIn(fs, t, e).Slack? {
      UncountedInSlack(fs, t, fs1, e, d, c, k);
      SameChains(fs, t, e);
    } else {
      UncountedInNewCluster(fs, t, fs.(fat := Appended(fs.fat, LastOf(t, e), free)), fs1, e, d);
    }
    CreatedAtEnd(fs, t, fs1, Counted(fs, t, e), fs2, e, d, c2, k2);
  }

  /**
   * The record is on the card, but the length counted up is that of record `s` of directory `q`, which had none. Every
   * directory has the records it had, but for that one.
   */
  ghost predicate Miscounted(fs: Fs, t: Tree, fs': Fs, t': Tree, e: nat, q: nat, s: nat, d: Dirent) {
    && WellFormed(fs, t) && e in t.dirs && q in t.dirs && s < t.dirs[q].length && t' == Between(fs, t, e, 0)
    && Edited(fs, t, fs', t', q, s, WithLength(Entries(fs, t, q)[s], 1))
    && Behind(fs, t, fs', t', e, WrittenAt(fs, t, e, 0), d)
  }

  lemma MiscountedElsewhere(fs: Fs, t: Tree, fs1: Fs, fs2: Fs, e: nat, q: nat, s: nat, d: Dirent, c: nat, k: nat, c2: nat, k2: nat)
    requires Placed(fs, t, fs1, e, 0, d, c, k) && !SeenPlace(fs, t, e, 0).Deleted? && q in t.dirs && s < t.dirs[q].length
    requires q in Between(fs, t, e, 0).dirs
    requires SlotSet(fs1, fs2, Between(fs, t, e, 0).dirs[q].clusters, s, c2, k2, WithLength(Entries(fs, t, q)[s], 1))
    ensures Miscounted(fs, t, fs2, Between(fs, t, e, 0), e, q, s, d)
  {
    hide ChainsOk, LengthsOk, SetRecord, Slots, Pages, RecordsOk, HomeOk, FirstOk, FindPlace, Exists, Length, FirstCluster, IsChain, Entries,
         Beyond;
    PlacedBeyond(fs, t, fs1, e, 0, d, c, k);
    BeyondEdited(fs, t, fs1, Between(fs, t, e, 0), q, s, c2, k2, WithLength(Entries(fs, t, q)[s], 1));
  }

  /** The length that is kept for directory `e`. */
  ghost function KeptLength(t: Tree, fs': Fs, t': Tree, e: nat): nat
    requires FsOk(fs') && ChainsOk(fs', t') && e in t.dirs && t.dirs[e].homeDir in t'.dirs
    requires t.dirs[e].homeSlot < |DirSlots(fs', t', t.dirs[e].homeDir)|
  {
    Length(DirSlots(fs', t', t.dirs[e].homeDir)[t.dirs[e].homeSlot])
  }

  /** What adding a record to directory `e` by way of record `s` of directory `q` does. */
  ghost predicate Added(fs: Fs, t: Tree, fs': Fs, t': Tree, e: nat, q: nat, s: nat, d: Dirent) {
    && WellFormed(fs, t) && e in t.dirs
    && if AtHome(t, e, q, s) || SeenPlace(fs, t, e, 0).Deleted? then Created(fs, t, fs', t', e, d)
       else Miscounted(fs, t, fs', t', e, q, s, d)
  }

  ghost function AfterAdding(fs: Fs, t: Tree, e: nat, q: nat, s: nat): Tree
    requires WellFormed(fs, t) && e in t.dirs
  {
    if AtHome(t, e, q, s) || SeenPlace(fs, t, e, 0).Deleted? then Counted(fs, t, e) else Between(fs, t, e, 0)
  }

  lemma AddedInDeleted(fs: Fs, t: Tree, fs1: Fs, e: nat, q: nat, s: nat, d: Dirent, c: nat, k: nat)
    requires e in t.dirs && Placed(fs, t, fs1, e, TakenLength(t, e, q, s), d, c, k) && Addable(t, d) && Given(t, e, TakenLength(t, e, q, s))
    requires SeenPlace(fs, t, e, TakenLength(t, e, q, s)).Deleted?
    ensures Added(fs, t, fs1, AfterAdding(fs, t, e, q, s), e, q, s, d)
  {
    hide WellFormed, SlotSet, Created, SeenPlace, PlaceIn;
    SeenPlaceIs(fs, t, e, TakenLength(t, e, q, s));
    CreatedInDeleted(fs, t, fs1, e, PlaceIn(fs, t, e).j, c, k, d);
  }

  lemma AddedAtEnd(fs: Fs, t: Tree, fs1: Fs, fs2: Fs, e: nat, q: nat, s: nat, d: Dirent, c: nat, k: nat, c2: nat, k2: nat)
    requires WellFormed(fs, t) && e in t.dirs && q in t.dirs && s < t.dirs[q].length && Addable(t, d)
    requires HomeOk(fs, t, e) && t.dirs[e].length + 1 < U32_RANGE && Given(t, e, TakenLength(t, e, q, s))
    requires var n := TakenLength(t, e, q, s);
             && Placed(fs, t, fs1, e, n, d, c, k) && !SeenPlace(fs, t, e, n).Deleted? && q in Between(fs, t, e, n).dirs
             && SlotSet(fs1, fs2, Between(fs, t, e, n).dirs[q].clusters, s, c2, k2, WithLength(Entries(fs, t, q)[s], n + 1))
    ensures Added(fs, t, fs2, AfterAdding(fs, t, e, q, s), e, q, s, d)
  {
    hide RecordsOk, FirstOk, LengthsOk, ChainsOk, SlotSet, Placed, Between, Created, Miscounted, SeenPlace, PlaceIn, Counted, Exists, FirstCluster, Length;
    SeenPlaceIs(fs, t, e, TakenLength(t, e, q, s));
    HasFirst(fs, t, e);
    if AtHome(t, e, q, s) {
      CreatedAtHome(fs, t, fs1, fs2, e, d, c, k, c2, k2);
    } else {
      MiscountedElsewhere(fs, t, fs1, fs2, e, q, s, d, c, k, c2, k2);
    }
  }

  /** The record is one of those that its directory counts exactly if the path leads by the record that keeps the length, or a deleted slot is reused. */
  lemma CountedExactlyAtHomeOrReused(fs: Fs, t: Tree, fs': Fs, t': Tree, e: nat, q: nat, s: nat, d: Dirent)
    requires Added(fs, t, fs', t', e, q, s, d)
    ensures FsOk(fs') && ChainsOk(fs', t') && t.dirs[e].homeDir in t'.dirs && t.dirs[e].homeSlot < |DirSlots(fs', t', t.dirs[e].homeDir)|
    ensures WrittenAt(fs, t, e, TakenLength(t, e, q, s)) < KeptLength(t, fs', t', e) <==> AtHome(t, e, q, s) || SeenPlace(fs, t, e, 0).Deleted?
  {
    hide WellFormed, Created, Miscounted, SeenPlace, PlaceIn, WrittenAt, KeptLength, DirSlots, FsOk, ChainsOk;
    var n := TakenLength(t, e, q, s);
    if AtHome(t, e, q, s) || SeenPlace(fs, t, e, 0).Deleted? {
      CreatedLength(fs, t, fs', t', e, d);
      SameWritten(fs, t, e, q, s);
    } else {
      MiscountedLength(fs, t, fs', t', e, q, s, d);
    }
  }

  lemma SameWritten(fs: Fs, t: Tree, e: nat, q: nat, s: nat)
    requires WellFormed(fs, t) && e in t.dirs && (AtHome(t, e, q, s) || SeenPlace(fs, t, e, 0).Deleted?)
    ensures WrittenAt(fs, t, e, TakenLength(t, e, q, s)) == WrittenAt(fs, t, e, t.dirs[e].length)
  {
    hide ChainsOk, LengthsOk, RecordsOk, HomeOk, FirstOk, PlaceIn, SeenPlace;
    SeenPlaceIs(fs, t, e, TakenLength(t, e, q, s));
    SeenPlaceIs(fs, t, e, t.dirs[e].length);
    HasFirst(fs, t, e);
  }

  lemma MiscountedLength(fs: Fs, t: Tree, fs': Fs, t': Tree, e: nat, q: nat, s: nat, d: Dirent)
    requires Miscounted(fs, t, fs', t', e, q, s, d) && !AtHome(t, e, q, s)
    ensures FsOk(fs') && ChainsOk(fs', t') && t.dirs[e].homeDir in t'.dirs && t.dirs[e].homeSlot < |DirSlots(fs', t', t.dirs[e].homeDir)|
    ensures KeptLength(t, fs', t', e) == t.dirs[e].length <= WrittenAt(fs, t, e, 0)
  {
    hide Slots, Pages, RecordsOk, FirstOk, FindPlace, Exists, Length, FirstCluster, IsChain, ChainsOk, LengthsOk, Between, WrittenAt, Entries;
    assert HomeOk(fs, t, e);
    var p, j := t.dirs[e].homeDir, t.dirs[e].homeSlot;
    assert DirSlots(fs', t', p)[j] == DirSlots(fs', t', p)[..t.dirs[p].length][j];
  }

  lemma CreatedLength(fs: Fs, t: Tree, fs': Fs, t': Tree, e: nat, d: Dirent)
    requires Created(fs, t, fs', t', e, d)
    ensures FsOk(fs') && ChainsOk(fs', t')
    ensures e in t'.dirs && t'.dirs[e].homeDir == t.dirs[e].homeDir && t'.dirs[e].homeSlot == t.dirs[e].homeSlot
    ensures t'.dirs[e].homeDir in t'.dirs && t'.dirs[e].homeSlot < |DirSlots(fs', t', t'.dirs[e].homeDir)|
    ensures KeptLength(t, fs', t', e) == t'.dirs[e].length == t.dirs[e].length + if PlaceIn(fs, t, e).Deleted? then 0 else 1
    ensures WrittenAt(fs, t, e, t.dirs[e].length) < t'.dirs[e].length
  {
    hide Slots, Pages, RecordsOk, FirstOk, FindPlace, Exists, Length, FirstCluster, IsChain;
    PlaceIs(fs, t, e);
    assert HomeOk(fs', t', e);
    EntriesAreFirst(fs', t', t'.dirs[e].homeDir);
  }

  /** On a formatted card "..", or whatever the second record is called, leads to the root by a record that does not keep its length. */
  lemma SecondRecordIsNotHome(fs: Fs, x: Name)
    requires Formatted(fs) && Matches(x, RecordOf(ClusterPages(fs, 0)[1])) && !Matches(x, RecordOf(ClusterPages(fs, 0)[0]))
    ensures Leads(fs, FORMATTED, [x], 0, 0, 1) && !AtHome(FORMATTED, 0, 0, 1) && SeenPlace(fs, FORMATTED, 0, 0).NoPlace?
  {
    hide Exists, FirstCluster, Length, Matches, Entries, ChainsOk, LengthsOk, RecordsOk, HomeOk, FirstOk, Slots, Pages, ClusterPages, FsOk, FindPlace;
    FormattedIsWellFormed(fs);
    FormattedEntries(fs);
    var rs := Entries(fs, FORMATTED, 0);
    assert FindName(rs, 2, x) == 1;
    SeenPlaceIs(fs, FORMATTED, 0, 0);
    PlaceIs(fs, FORMATTED, 0);
    NoSlackWhenFormatted(fs);
  }

  lemma NoSlackWhenFormatted(fs: Fs)
    requires WellFormed(fs, FORMATTED) && fs.ppc == 2
    ensures |DirSlots(fs, FORMATTED, 0)| == 2
  {
    assert Times(1, 2) == Times(0, 2) + 2;
  }

  /** Adds a record to the directory a path leads to, and counts it in the record that the path names. */
  method CreateNewVirtualDirent(cache: PageCache, sb: Superblock, path: seq<byte>, d: Dirent, ghost t: Tree, ghost e: nat, ghost q: nat, ghost s: nat)
    returns (result: int, ghost t': Tree)
    requires Readable(cache, sb) && Leads(View(cache.store, sb), t, Components(path), e, q, s) && Addable(t, d)
    requires SeenPlace(View(cache.store, sb), t, e, TakenLength(t, e, q, s)).NoPlace? ==> FirstFree(Fat(cache.store, sb)) < sb.clusters
    modifies cache, cache.slots, cache.card
    ensures Readable(cache, sb) && result >= 0
    ensures Added(View(old(cache.store), sb), t, View(cache.store, sb), t', e, q, s, d)
    ensures result == if SeenPlace(View(old(cache.store), sb), t, e, TakenLength(t, e, q, s)).Deleted? then 2 else 0
  {
    hide Represents, ClusterOf, FatCluster, FatEntry, Pages, ClusterPages, Slots, SetRecord, FindPlace, RecordsOk, HomeOk, FirstOk,
         Entries, Created, IsChain, OnDirs, Find, LengthsOk, FirstFree, SlotsFrom, Beyond, Added, Placed, SeenPlace, FirstCluster, Length, Exists,
         Between, AfterAdding, ChainsOk, Components, WellFormed, AtHome;
    ghost var fs, n := View(cache.store, sb), TakenLength(t, e, q, s);
    LeadsResolves(fs, t, Components(path), e, q, s);
    LeadsLength(fs, t, Components(path), e, q, s);
    t' := AfterAdding(fs, t, e, q, s);
    var parent;
    result, parent := GetFileData(cache, sb, path);
    if result >= 0 {
      ghost var c, k, c2, k2;
      result, c, k := PutRecord(cache, sb, path, parent, d, t, e, q, s);
      ghost var fs1 := View(cache.store, sb);
      if result >= 0 && result != DELETED_SLOT {
        PlacedBeyond(fs, t, fs1, e, n, d, c, k);
        result, c2, k2 := CountRecord(cache, sb, path, parent, fs, t, Between(fs, t, e, n), e, q, s);
        AddedAtEnd(fs, t, fs1, View(cache.store, sb), e, q, s, d, c, k, c2, k2);
      } else {
        AddedInDeleted(fs, t, fs1, e, q, s, d, c, k);
      }
    }
  }
}
