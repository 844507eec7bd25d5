/** Deleting cross-linked aliases, and doing so after they were created (mctools.c). */
module Unlinking {
  import opened Constants
  import opened Bytes
  import opened PageCaching
  import opened FatTable
  import opened Chains
  import opened Dirents
  import opened Directory
  import opened DirectoryScan
  import opened Paths
  import opened Resolution
  import opened DirectoryTree
  import opened Placement
  import opened Growth
  import opened Creation
  import opened Naming
  import opened Removal
  import opened Demand
  import opened CrossLinks

  /** The directory of an alias is there, but nothing in it has the alias's name. */
  ghost predicate Gone(fs: Fs, t: Tree, a: FileAlias, e: nat) {
    && LeadsHome(fs, t, Components(DirPart(a.name)), e)
    && Unused(fs, t, e, Key(FilePart(a.name)))
  }

  /** Where an alias is found: in slot `s` of its directory. */
  datatype Spot = Spot(s: nat) | Absent

  /** Slot `s` of the alias's directory is the only record of its name, and leads to no directory. */
  ghost predicate SoleRecord(fs: Fs, t: Tree, a: FileAlias, e: nat, s: nat) {
    && LeadsHome(fs, t, Components(DirPart(a.name)), e)
    && PlainName(FilePart(a.name))
    && SoleAt(fs, t, e, Key(FilePart(a.name)), s) && FirstCluster(Entries(fs, t, e)[s]) !in t.dirs
  }

  /** The name of the alias has its record at the spot, whatever file it is of, apart from that of the original; or it is not in use. */
  ghost predicate Spotted(fs: Fs, t: Tree, a: FileAlias, e: nat, spot: Spot, p: nat, j: nat) {
    match spot
    case Spot(s) => SoleRecord(fs, t, a, e, s) && !(e == p && s == j)
    case Absent => Gone(fs, t, a, e) && PlainName(FilePart(a.name))
  }

  /** How many of the first `n` spots hold an alias. */
  ghost function Present(spots: seq<Spot>, n: nat): nat
    requires n <= |spots|
  {
    if n == 0 then 0 else Present(spots, n - 1) + if spots[n - 1].Spot? then 1 else 0
  }

  /** The first `i` of `n` aliases are gone, the others are where they were, and the original is what it was. */
  ghost predicate Regress(fs: Fs, t: Tree, aliases: seq<FileAlias>, es: seq<nat>, spots: seq<Spot>, i: nat, n: nat,
                          names: seq<Name>, p: nat, j: nat, d: Dirent)
    requires n <= |aliases| && n <= |es| && n <= |spots|
  {
    && i <= n
    && (forall k {:trigger aliases[k]} :: 0 <= k < i ==> Gone(fs, t, aliases[k], es[k]))
    && (forall k {:trigger spots[k]} :: i <= k < n ==> Spotted(fs, t, aliases[k], es[k], spots[k], p, j))
    && NamesFile(fs, t, names, p, j, d)
  }

  lemma StillGone(fs: Fs, t: Tree, fs': Fs, e: nat, s: nat, a: FileAlias, y: nat)
    requires Shrunk(fs, t, fs', e, s) && WellFormed(fs', t)
    requires Gone(fs, t, a, y) || (y == e && LeadsHome(fs, t, Components(DirPart(a.name)), y) && SoleAt(fs, t, y, Key(FilePart(a.name)), s))
    ensures Gone(fs', t, a, y)
  {
    hide ChainsOk, LengthsOk, RecordsOk, HomeOk, FirstOk, OnDirs, Find, Key, NameOf, Components, Exists, Length, FirstCluster;
    LeadsHomeShrunk(fs, t, fs', e, s, Components(DirPart(a.name)), y);
    UnusedShrunk(fs, t, fs', e, s, y, Key(FilePart(a.name)));
  }

  lemma OthersStay(fs: Fs, t: Tree, fs': Fs, e: nat, s: nat, a: FileAlias, y: nat, x: nat)
    requires Shrunk(fs, t, fs', e, s) && WellFormed(fs', t) && SoleRecord(fs, t, a, y, x) && !(y == e && x == s)
    ensures SoleRecord(fs', t, a, y, x)
  {
    hide ChainsOk, LengthsOk, RecordsOk, HomeOk, FirstOk, OnDirs, Find, Key, NameOf, Components, Exists, Length, FirstCluster;
    LeadsHomeShrunk(fs, t, fs', e, s, Components(DirPart(a.name)), y);
    SoleShrunk(fs, t, fs', e, s, y, Key(FilePart(a.name)), x);
  }

  lemma FileKept(fs: Fs, t: Tree, fs': Fs, e: nat, s: nat, names: seq<Name>, p: nat, j: nat, d: Dirent)
    requires Shrunk(fs, t, fs', e, s) && WellFormed(fs', t) && NamesFile(fs, t, names, p, j, d) && !(p == e && j == s)
    ensures NamesFile(fs', t, names, p, j, d)
  {
    hide ChainsOk, LengthsOk, RecordsOk, HomeOk, FirstOk, OnDirs, Key, NameOf, Exists, Length, FirstCluster;
    FindShrunk(fs, t, fs', e, s, names, 0, 0);
  }

  /** Two aliases in the same slot would have the same name. */
  lemma SlotsApart(fs: Fs, t: Tree, a: FileAlias, b: FileAlias, e: nat, y: nat, s: nat, x: nat)
    requires SoleRecord(fs, t, a, e, s) && SoleRecord(fs, t, b, y, x)
    requires e == y ==> Key(FilePart(a.name)) != Key(FilePart(b.name))
    ensures !(y == e && x == s)
  {
  }

  /** Nothing is deleted for an alias that is not there. */
  lemma RegressSkip(fs: Fs, t: Tree, aliases: seq<FileAlias>, es: seq<nat>, spots: seq<Spot>, i: nat, n: nat,
                    names: seq<Name>, p: nat, j: nat, d: Dirent)
    requires n <= |aliases| && n <= |es| && n <= |spots| && i < n && spots[i].Absent?
    requires Regress(fs, t, aliases, es, spots, i, n, names, p, j, d)
    ensures Regress(fs, t, aliases, es, spots, i + 1, n, names, p, j, d)
  {
    hide NamesFile, Gone, SoleRecord;
    assert Spotted(fs, t, aliases[i], es[i], spots[i], p, j);
  }

  lemma RegressStep(fs: Fs, t: Tree, fs': Fs, aliases: seq<FileAlias>, es: seq<nat>, spots: seq<Spot>, i: nat, n: nat,
                    names: seq<Name>, p: nat, j: nat, d: Dirent)
    requires n <= |aliases| && n <= |es| && n <= |spots| && i < n && spots[i].Spot?
    requires Regress(fs, t, aliases, es, spots, i, n, names, p, j, d) && NamesApart(aliases, es, n)
    requires Shrunk(fs, t, fs', es[i], spots[i].s) && WellFormed(fs', t)
    ensures Regress(fs', t, aliases, es, spots, i + 1, n, names, p, j, d)
  {
    hide WellFormed, Shrunk, NamesFile, Length, FirstCluster, NameOf, Exists, Key, FilePart, Gone, SoleAt, LeadsHome;
    var e, s := es[i], spots[i].s;
    assert Spotted(fs, t, aliases[i], es[i], spots[i], p, j);
    StillGone(fs, t, fs', e, s, aliases[i], e);
    forall k | 0 <= k < i
      ensures Gone(fs', t, aliases[k], es[k])
    {
      StillGone(fs, t, fs', e, s, aliases[k], es[k]);
    }
    forall k | i < k < n
      ensures Spotted(fs', t, aliases[k], es[k], spots[k], p, j)
    {
      assert Spotted(fs, t, aliases[k], es[k], spots[k], p, j);
      match spots[k]
      case Spot(x) =>
        SlotsApart(fs, t, aliases[i], aliases[k], e, es[k], s, x);
        OthersStay(fs, t, fs', e, s, aliases[k], es[k], x);
      case Absent =>
        StillGone(fs, t, fs', e, s, aliases[k], es[k]);
    }
    FileKept(fs, t, fs', e, s, names, p, j, d);
  }

  /** A path below a directory is looked up from there. */
  lemma {:induction false} FindJoined(fs: Fs, t: Tree, a: seq<Name>, b: seq<Name>, y: nat, n: nat)
    requires WellFormed(fs, t) && a != [] && b != [] && OnDirs(fs, t, a, y, n) && Find(fs, t, a, y, n).Found?
    requires var o := Find(fs, t, a, y, n);
             var r := Entries(fs, t, o.dir)[o.j];
             OnDirs(fs, t, b, FirstCluster(r), Length(r))
    ensures OnDirs(fs, t, a + b, y, n)
    ensures var o := Find(fs, t, a, y, n);
            var r := Entries(fs, t, o.dir)[o.j];
            Find(fs, t, a + b, y, n) == Find(fs, t, b, FirstCluster(r), Length(r))
    decreases |a|
  {
    hide ChainsOk, LengthsOk, RecordsOk, HomeOk, FirstOk, Entries, Exists, Length, FirstCluster, FindName;
    assert (a + b)[0] == a[0];
    if |a| == 1 {
      assert (a + b)[1..] == b;
    } else {
      assert (a + b)[1..] == a[1..] + b;
      var r := Entries(fs, t, y)[FindName(Entries(fs, t, y), t.dirs[y].length, a[0])];
      FindJoined(fs, t, a[1..], b, FirstCluster(r), Length(r));
    }
  }

  /** A path that leads to the root can be put in front of any other. */
  lemma LeadsHomeFromRoot(fs: Fs, t: Tree, a: seq<Name>, b: seq<Name>, e: nat)
    requires LeadsHome(fs, t, a, 0) && LeadsHome(fs, t, b, e)
    ensures LeadsHome(fs, t, a + b, e)
  {
    hide ChainsOk, LengthsOk, RecordsOk, Exists, Length, FirstCluster, FindName;
    assert HomeOk(fs, t, 0) && FirstOk(fs, t, 0);
    HasFirst(fs, t, 0);
    var n := t.dirs[0].length;
    assert Sees(fs, t, 0, n) && Sees(fs, t, 0, 0);
    assert OnDirs(fs, t, b, 0, n) && Find(fs, t, b, 0, n) == Find(fs, t, b, 0, 0);
    FindJoined(fs, t, a, b, 0, 0);
  }

  method DeleteAlias(cache: PageCache, sb: Superblock, path: seq<byte>, a: FileAlias, ghost t: Tree, ghost e: nat, ghost spot: Spot,
                     ghost p: nat, ghost j: nat) returns (result: int)
    requires Readable(cache, sb) && LeadsHome(View(cache.store, sb), t, Components(path), 0)
    requires Spotted(View(cache.store, sb), t, a, e, spot, p, j)
    modifies cache, cache.slots, cache.card
    ensures Readable(cache, sb)
    ensures match spot
            case Spot(s) => result >= 0 && Shrunk(View(old(cache.store), sb), t, View(cache.store, sb), e, s) && WellFormed(View(cache.store, sb), t)
            case Absent => result == -ENOENT && cache.store == old(cache.store)
  {
    hide Represents, ClusterOf, FatCluster, FatEntry, Pages, Slots, ChainsOk, LengthsOk, RecordsOk, HomeOk, FirstOk, OnDirs, Find, FindPlace,
         Length, FirstCluster, NameOf, Exists, Key, Components, Shrunk;
    ghost var fs := View(cache.store, sb);
    var pathToTarget := Joined(path, DirPart(a.name));
    ComponentsJoin(path, DirPart(a.name));
    LeadsHomeFromRoot(fs, t, Components(path), Components(DirPart(a.name)), e);
    SingleComponent(FilePart(a.name));
    ghost var s := if spot.Spot? then spot.s else 0;
    result := DeleteVirtualDirent(cache, sb, pathToTarget, FilePart(a.name), t, e, s);
  }

  /** Deletes the aliases that are there, which are looked up below `path`, and counts them; no FAT entry and no file changes. */
  method DeleteCrossLinkedFiles(cache: PageCache, sb: Superblock, path: seq<byte>, aliases: seq<FileAlias>,
                                ghost t: Tree, ghost es: seq<nat>, ghost spots: seq<Spot>, ghost names: seq<Name>, ghost p: nat, ghost j: nat, ghost d: Dirent)
    returns (result: int)
    requires |aliases| == |es| == MAX_RPC_FILE_ENTRIES && Count(aliases) <= |spots| && Readable(cache, sb)
    requires LeadsHome(View(cache.store, sb), t, Components(path), 0)
    requires Regress(View(cache.store, sb), t, aliases, es, spots, 0, Count(aliases), names, p, j, d) && NamesApart(aliases, es, Count(aliases))
    modifies cache, cache.slots, cache.card
    ensures Readable(cache, sb) && result == Present(spots, Count(aliases))
    ensures Regress(View(cache.store, sb), t, aliases, es, spots, Count(aliases), Count(aliases), names, p, j, d)
    ensures Fat(cache.store, sb) == Fat(old(cache.store), sb)
    ensures SameFiles(View(old(cache.store), sb), View(cache.store, sb), t)
  {
    hide Represents, ClusterOf, FatCluster, FatEntry, Pages, Slots, SoleRecord, ChainsOk, LengthsOk, RecordsOk, Gone, Shrunk, NamesApart,
         HomeOk, FirstOk, OnDirs, Find, FindPlace, Length, FirstCluster, NameOf, Exists, Key, Components, NamesFile, Count;
    ghost var fs, n := View(cache.store, sb), Count(aliases);
    result := 0;
    FilesStay(fs, t);
    var i := 0;
    while i < MAX_RPC_FILE_ENTRIES && aliases[i].name != []
      invariant i <= n && Readable(cache, sb) && result == Present(spots, i)
      invariant LeadsHome(View(cache.store, sb), t, Components(path), 0)
      invariant Regress(View(cache.store, sb), t, aliases, es, spots, i, n, names, p, j, d)
      invariant Fat(cache.store, sb) == fs.fat && SameFiles(fs, View(cache.store, sb), t)
    {
      ghost var fs1 := View(cache.store, sb);
      assert Spotted(fs1, t, aliases[i], es[i], spots[i], p, j);
      var deleted := DeleteAlias(cache, sb, path, aliases[i], t, es[i], spots[i], p, j);
      match spots[i] {
        case Spot(s) =>
          RegressStep(fs1, t, View(cache.store, sb), aliases, es, spots, i, n, names, p, j, d);
          LeadsHomeShrunk(fs1, t, View(cache.store, sb), es[i], s, Components(path), 0);
          ShrunkFiles(fs1, t, View(cache.store, sb), es[i], s);
        case Absent =>
          RegressSkip(fs1, t, aliases, es, spots, i, n, names, p, j, d);
      }
      if deleted >= 0 {
        result := result + 1;
      }
      i := i + 1;
    }
  }

  lemma ShrunkFiles(fs: Fs, t: Tree, fs': Fs, p: nat, j: nat)
    requires Shrunk(fs, t, fs', p, j)
    ensures fs'.fat == fs.fat && SameFiles(fs, fs', t)
  {
    forall f | f in t.files
      ensures IsDir(fs, t.files[f]) && IsDir(fs', t.files[f])
    {
      assert Heads(fs, f, t.files[f]) && Heads(fs', f, t.files[f]);
    }
  }

  /** The path of an alias, as components. */
  ghost function AliasNames(a: FileAlias): (names: seq<Name>)
    ensures names != []
  {
    Components(DirPart(a.name)) + [FilePart(a.name)]
  }

  lemma GoneResolves(fs: Fs, t: Tree, a: FileAlias, e: nat)
    requires Gone(fs, t, a, e)
    ensures FromRoot(fs, AliasNames(a)) == Missing
  {
    UnusedIsMissing(fs, t, a, e);
  }

  /** The alias resolves to a record with its own mode and name, and otherwise that of `d`. */
  ghost predicate Resolves(fs: Fs, a: FileAlias, d: Dirent) {
    var o := FromRoot(fs, AliasNames(a));
    && o.Found? && IsAlias(RecordAt(fs, o), a, d) && Mode(RecordAt(fs, o)) == a.mode
    && FirstCluster(RecordAt(fs, o)) == FirstCluster(d) && Length(RecordAt(fs, o)) == Length(d)
  }

  ghost predicate AllResolve(fs: Fs, aliases: seq<FileAlias>, n: nat, d: Dirent)
    requires n <= |aliases|
  {
    forall i {:trigger aliases[i]} :: 0 <= i < n ==> Resolves(fs, aliases[i], d)
  }

  ghost predicate NoneResolves(fs: Fs, aliases: seq<FileAlias>, n: nat)
    requires n <= |aliases|
  {
    forall i {:trigger aliases[i]} :: 0 <= i < n ==> FromRoot(fs, AliasNames(aliases[i])) == Missing
  }

  /** The spots of aliases that are all in place. */
  ghost function AllIn(slots: seq<nat>): (spots: seq<Spot>)
    ensures |spots| == |slots|
  {
    seq(|slots|, k requires 0 <= k < |slots| => Spot(slots[k]))
  }

  lemma InPlaceIsSole(fs: Fs, t: Tree, a: FileAlias, e: nat, s: nat, d: Dirent)
    requires InPlace(fs, t, a, e, s, d) && FirstCluster(d) !in t.dirs
    ensures SoleRecord(fs, t, a, e, s)
  {
  }

  lemma ProgressResolves(fs: Fs, t: Tree, aliases: seq<FileAlias>, es: seq<nat>, slots: seq<nat>, n: nat, names: seq<Name>, p: nat, j: nat, d: Dirent)
    requires n <= |aliases| && n <= |es| && Progress(fs, t, aliases, es, slots, n, n, names, p, j, d)
    ensures AllResolve(fs, aliases, n, d)
    ensures Regress(fs, t, aliases, es, AllIn(slots), 0, n, names, p, j, d)
  {
    hide InPlace, NamesFile;
    FileNotDir(fs, t, names, p, j, d);
    forall k | 0 <= k < n
      ensures Spotted(fs, t, aliases[k], es[k], AllIn(slots)[k], p, j)
    {
      assert InPlace(fs, t, aliases[k], es[k], slots[k], d);
      InPlaceIsSole(fs, t, aliases[k], es[k], slots[k], d);
    }
    forall i | 0 <= i < n
      ensures Resolves(fs, aliases[i], d)
    {
      assert InPlace(fs, t, aliases[i], es[i], slots[i], d);
      InPlaceResolves(fs, t, aliases[i], es[i], slots[i], d);
    }
  }

  lemma RegressResolves(fs: Fs, t: Tree, aliases: seq<FileAlias>, es: seq<nat>, spots: seq<Spot>, n: nat, names: seq<Name>, p: nat, j: nat, d: Dirent)
    requires n <= |aliases| && n <= |es| && n <= |spots| && Regress(fs, t, aliases, es, spots, n, n, names, p, j, d)
    ensures NoneResolves(fs, aliases, n)
  {
    hide Gone, NamesFile;
    forall i | 0 <= i < n
      ensures FromRoot(fs, AliasNames(aliases[i])) == Missing
    {
      GoneResolves(fs, t, aliases[i], es[i]);
    }
  }

  /**
   * Installing and uninstalling: after the creation every alias resolves to a record like that of the original, with its
   * own mode and name; after the deletion of the same list none resolves, the path of the original still names it, every file has its pages,
   * and the FAT is what the creation left. The card agrees with the cache after the last flush.
   */
  method CreateThenDelete(cache: PageCache, sb: Superblock, path: seq<byte>, root: seq<byte>, aliases: seq<FileAlias>,
                          ghost t: Tree, ghost es: seq<nat>, ghost p: nat, ghost j: nat, ghost d: Dirent) returns (ghost installed: Fs)
    requires |aliases| == |es| == MAX_RPC_FILE_ENTRIES && Readable(cache, sb)
    requires Progress(View(cache.store, sb), t, aliases, es, [], 0, Count(aliases), Components(path), p, j, d)
    requires d == Entries(View(cache.store, sb), t, p)[j]
    requires NamesApart(aliases, es, Count(aliases)) && Enough(View(cache.store, sb), t, es, 0, Count(aliases))
    requires LeadsHome(View(cache.store, sb), t, Components(root), 0)
    modifies cache, cache.slots, cache.card
    ensures Readable(cache, sb) && cache.card.flash == cache.store
    ensures AllResolve(installed, aliases, Count(aliases), d)
    ensures NoneResolves(View(cache.store, sb), aliases, Count(aliases))
    ensures var o := FromRoot(View(cache.store, sb), Components(path));
            o == Found(p, j) && RecordAt(View(cache.store, sb), o) == d
    ensures SameFiles(View(old(cache.store), sb), View(cache.store, sb), t)
    ensures Fat(cache.store, sb) == installed.fat
  {
    hide Represents, ClusterOf, FatCluster, FatEntry, Pages, Slots, Gone, Shrunk, NamesApart, Creatable, Progress, Regress, AllResolve, NoneResolves,
         FindPlace, Length, FirstCluster, Components, LeadsHome, WellFormed, NamesFile, Enough, Count, FromRoot;
    ghost var fs, n := View(cache.store, sb), Count(aliases);
    var created;
    ghost var t', slots;
    ProgressRange(fs, t, aliases, es, [], 0, n, Components(path), p, j, d);
    created, t', slots := CreateCrossLinkedFiles(cache, sb, path, aliases, t, es, p, j, d);
    installed := View(cache.store, sb);
    ProgressRange(installed, t', aliases, es, slots, n, n, Components(path), p, j, d);
    ProgressResolves(installed, t', aliases, es, slots, n, Components(path), p, j, d);
    var deleted := DeleteCrossLinkedFiles(cache, sb, root, aliases, t', es, AllIn(slots), Components(path), p, j, d);
    var flushed := cache.FlushPageCache();
    ghost var fs' := View(cache.store, sb);
    RegressResolves(fs', t', aliases, es, AllIn(slots), n, Components(path), p, j, d);
    RegressFile(fs', t', aliases, es, AllIn(slots), n, n, Components(path), p, j, d);
    FileResolves(fs', t', Components(path), p, j, d);
  }

  lemma ProgressRange(fs: Fs, t: Tree, aliases: seq<FileAlias>, es: seq<nat>, slots: seq<nat>, i: nat, n: nat, names: seq<Name>, p: nat, j: nat, d: Dirent)
    requires n <= |aliases| && n <= |es| && Progress(fs, t, aliases, es, slots, i, n, names, p, j, d)
    ensures |slots| == i && NamesFile(fs, t, names, p, j, d)
  {
  }

  lemma RegressFile(fs: Fs, t: Tree, aliases: seq<FileAlias>, es: seq<nat>, spots: seq<Spot>, i: nat, n: nat, names: seq<Name>, p: nat, j: nat, d: Dirent)
    requires n <= |aliases| && n <= |es| && n <= |spots| && Regress(fs, t, aliases, es, spots, i, n, names, p, j, d)
    ensures NamesFile(fs, t, names, p, j, d)
  {
  }

  lemma FileResolves(fs: Fs, t: Tree, names: seq<Name>, p: nat, j: nat, d: Dirent)
    requires NamesFile(fs, t, names, p, j, d)
    ensures var o := FromRoot(fs, names);
            o == Found(p, j) && RecordAt(fs, o) == d
  {
    ResolveIsFind(fs, t, names, 0, 0);
    DirChain(fs, t, p);
  }
}
