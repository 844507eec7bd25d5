/** Finding the record a path names, and rewriting it (mctools.c, GetSetFileData and UpdateDirEntInformation). */
module Files {
  import opened Constants
  import opened Bytes
  import opened PageCaching
  import opened FatTable
  import opened Chains
  import opened Dirents
  import opened Directory
  import opened DirectoryScan
  import opened Paths
  import opened Resolution

  ghost predicate Usable(cache: PageCache, sb: Superblock)
    reads cache, cache.card, cache.slots
  {
    Readable(cache, sb) && RootSelf(View(cache.store, sb))
  }

  /** The buffers after a scan that stopped at slot `j` of the directory that starts with cluster `dir`. */
  ghost predicate AtSlot(fs: Fs, dir: nat, j: nat, cluster: nat, logicalPageNum: nat, buffer: Page) {
    && HasChain(fs, dir) && j < |SlotsFrom(fs, dir)|
    && Located(fs, ChainOf(fs, dir), j, cluster, logicalPageNum)
    && DIRENT_SIZE <= |buffer| && RecordOf(buffer) == SlotsFrom(fs, dir)[j] && Exists(RecordOf(buffer))
  }

  /** What the walk along a path leaves behind. */
  ghost predicate Walked(o: Outcome, fs: Fs, result: int, cluster: nat, logicalPageNum: nat, buffer: Page) {
    match o
    case Found(dir, j) => result == 0 && AtSlot(fs, dir, j, cluster, logicalPageNum, buffer)
    case Missing => result == -ENOENT
    case Hollow(dir, j) => result == 0 && cluster == END && HasChain(fs, dir) && j < |SlotsFrom(fs, dir)| &&
                           DIRENT_SIZE <= |buffer| && RecordOf(buffer) == SlotsFrom(fs, dir)[j]
    case Broken => true
  }

  /** Where a walk that stands at a record goes on with the components `names`. */
  ghost function GoOn(fs: Fs, dir: nat, j: nat, names: seq<Name>): Outcome
    requires HasChain(fs, dir) && j < |SlotsFrom(fs, dir)|
  {
    var d := SlotsFrom(fs, dir)[j];
    if names == [] then Found(dir, j)
    else if FirstCluster(d) == END then Hollow(dir, j)
    else Resolve(fs, names, FirstCluster(d), Length(d))
  }

  /** One component: scans the directory at `cluster` for `name`. */
  method FindComponent(cache: PageCache, sb: Superblock, dirEntLength: nat, dir: nat, name: Name, ghost names: seq<Name>)
    returns (result: int, pageNum: nat, logicalPageNum: nat, cluster: nat, buffer: Page, ghost j: nat)
    requires Usable(cache, sb) && HasChain(View(cache.store, sb), dir)
    modifies cache, cache.slots, cache.card
    ensures Usable(cache, sb) && cache.store == old(cache.store)
    ensures result == 0 || result == -ENOENT
    ensures result == 0 ==> AtSlot(View(cache.store, sb), dir, j, cluster, logicalPageNum, buffer) && pageNum == PageNumOf(sb, cluster)
    ensures Resolve(View(cache.store, sb), [name] + names, dir, dirEntLength) ==
            if result == 0 then GoOn(View(cache.store, sb), dir, j, names) else Missing
  {
    hide Represents, ClusterOf, FatCluster, FatEntry, FindName, FindDeleted, Pages, ClusterPages;
    ghost var fs := View(cache.store, sb);
    ghost var cs := ChainOf(fs, dir);
    result, pageNum, logicalPageNum, cluster, buffer := ScanThroughDirEnt(cache, sb, 0, dirEntLength, PageNumOf(sb, dir), dir, name, cs);
    j := Lookup(fs, dir, dirEntLength, name);
    assert ([name] + names)[1..] == names;
  }

  lemma RootStays(fs: Fs, dir: nat, j: nat, cluster: nat, logicalPageNum: nat, buffer: Page)
    requires RootSelf(fs) && AtSlot(fs, dir, j, cluster, logicalPageNum, buffer)
    ensures cluster == 0 ==> FirstCluster(RecordOf(buffer)) == 0
    ensures cluster != END
  {
    var cs := ChainOf(fs, dir);
    var i :| 0 <= i < |cs| && cs[i] == cluster && InCluster(j, i, fs.ppc, logicalPageNum);
    SlotAt(fs, cs, j, i, logicalPageNum);
  }

  /** Where the walk stands: at the start, or at slot `j` of `dir`, with the components `names` still to go. */
  datatype Stand = Start | At(dir: nat, j: nat)

  ghost predicate Standing(fs: Fs, goal: Outcome, stand: Stand, names: seq<Name>, dirEntLength: nat, cluster: nat, logicalPageNum: nat, buffer: Page) {
    match stand
    case Start => names != [] && cluster == 0 && dirEntLength == 0 && goal == FromRoot(fs, names)
    case At(dir, j) => AtSlot(fs, dir, j, cluster, logicalPageNum, buffer) && dirEntLength == Length(RecordOf(buffer)) &&
                       goal == GoOn(fs, dir, j, names)
  }

  /** The cluster at which the next component is looked for. */
  function NextDir(cluster: nat, buffer: Page): nat
    requires cluster != 0 ==> DIRENT_SIZE <= |buffer|
  {
    if cluster != 0 then FirstCluster(RecordOf(buffer)) else 0
  }

  lemma NextDirIs(fs: Fs, goal: Outcome, stand: Stand, names: seq<Name>, dirEntLength: nat, cluster: nat, logicalPageNum: nat, buffer: Page)
    requires RootSelf(fs) && Standing(fs, goal, stand, names, dirEntLength, cluster, logicalPageNum, buffer)
    requires names != [] && !goal.Broken?
    ensures cluster != 0 ==> DIRENT_SIZE <= |buffer|
    ensures var dir := NextDir(cluster, buffer);
            if dir == END then Walked(goal, fs, 0, END, 0, buffer) else goal == Resolve(fs, names, dir, dirEntLength) && HasChain(fs, dir)
  {
    if stand.At? {
      RootStays(fs, stand.dir, stand.j, cluster, logicalPageNum, buffer);
    }
  }

  /** The walk of GetSetFileData along the components of a path. */
  method WalkPath(cache: PageCache, sb: Superblock, path: seq<byte>)
    returns (result: int, pageNum: nat, logicalPageNum: nat, cluster: nat, buffer: Page)
    requires Usable(cache, sb)
    requires Components(path) != [] && !FromRoot(View(cache.store, sb), Components(path)).Broken?
    modifies cache, cache.slots, cache.card
    ensures Usable(cache, sb) && cache.store == old(cache.store)
    ensures Walked(FromRoot(View(cache.store, sb), Components(path)), View(cache.store, sb), result, cluster, logicalPageNum, buffer)
    ensures result >= 0 && cluster != END ==> pageNum == PageNumOf(sb, cluster)
  {
    hide Represents, ClusterOf, FatCluster, FatEntry, FindName, FindDeleted, Pages, ClusterPages;
    ghost var fs := View(cache.store, sb);
    ghost var goal, stand := FromRoot(fs, Components(path)), Start;
    var token := NextToken(path);
    ghost var names := Components(path);
    var dirEntLength := 0;
    result, pageNum, logicalPageNum, cluster, buffer := 0, PageNumOf(sb, sb.rootdirCluster), 0, sb.rootdirCluster, [];
    while token.Token? && result >= 0
      invariant Usable(cache, sb) && cache.store == old(cache.store)
      invariant names == if token.Token? then [token.name] + Components(token.rest) else []
      invariant result == 0 || (result == -ENOENT && goal == Missing)
      invariant result == 0 ==> Standing(fs, goal, stand, names, dirEntLength, cluster, logicalPageNum, buffer)
      invariant result == 0 ==> pageNum == PageNumOf(sb, cluster)
      decreases if token.Token? then 1 + |token.rest| else 0, result
    {
      NextDirIs(fs, goal, stand, names, dirEntLength, cluster, logicalPageNum, buffer);
      logicalPageNum := 0;
      if cluster != 0 {
        cluster := FirstCluster(RecordOf(buffer));
      }
      if cluster == END {
        return;
      }
      ghost var dir, j := cluster, 0;
      result, pageNum, logicalPageNum, cluster, buffer, j := FindComponent(cache, sb, dirEntLength, cluster, token.name, Components(token.rest));
      if result >= 0 {
        stand, names := At(dir, j), Components(token.rest);
        token := NextToken(token.rest);
        dirEntLength := Length(RecordOf(buffer));
      }
    }
  }
}
