/** Deleting a record: what it does to the card and to lookups by path. */
module Removal {
  import opened Constants
  import opened Arithmetic
  import opened Bytes
  import opened PageCaching
  import opened FatTable
  import opened Chains
  import opened Dirents
  import opened Directory
  import opened DirectoryScan
  import opened RecordUpdate
  import opened Paths
  import opened Resolution
  import opened Files
  import opened SlotEdits
  import opened DirectoryTree
  import opened Placement
  import opened Growth
  import opened Appending
  import opened Creation
  import opened Naming

  /** Record `j` of directory `p`, which does not lead to a directory, is marked as deleted; nothing else changes. */
  ghost predicate Shrunk(fs: Fs, t: Tree, fs': Fs, p: nat, j: nat) {
    && WellFormed(fs, t) && p in t.dirs && j < t.dirs[p].length
    && Exists(Entries(fs, t, p)[j]) && FirstCluster(Entries(fs, t, p)[j]) !in t.dirs
    && fs'.ppc == fs.ppc && fs'.n == fs.n && fs'.fat == fs.fat && Sound(fs', t)
    && (forall f :: f in t.files ==> Pages(fs', t.files[f]) == Pages(fs, t.files[f]))
    && forall x {:trigger Entries(fs', t, x)} :: x in t.dirs ==> Entries(fs', t, x) == Struck(fs, t, p, j, x)
  }

  /** The records of directory `x` after record `j` of directory `p` is deleted. */
  ghost function Struck(fs: Fs, t: Tree, p: nat, j: nat, x: nat): seq<Dirent>
    requires Sound(fs, t) && x in t.dirs && p in t.dirs && j < t.dirs[p].length
  {
    var rs := Entries(fs, t, x);
    if x == p then rs[j := WithMode(rs[j], MODE_DELETED)] else rs
  }

  lemma ShrunkRecords(fs: Fs, t: Tree, fs': Fs, p: nat, j: nat)
    requires Shrunk(fs, t, fs', p, j)
    ensures RecordsOk(fs', t)
  {
    hide ChainsOk, LengthsOk, HomeOk, FirstOk, Entries, Exists, Length, FirstCluster, NameOf, WithMode;
    forall x, y | x in t.dirs && 0 <= y < t.dirs[x].length && Exists(Entries(fs', t, x)[y])
      ensures RecordOk(t, x, y, Entries(fs', t, x)[y])
    {
      assert Entries(fs', t, x)[y] == Entries(fs, t, x)[y];
    }
  }

  lemma ShrunkHome(fs: Fs, t: Tree, fs': Fs, p: nat, j: nat, x: nat)
    requires Shrunk(fs, t, fs', p, j) && x in t.dirs
    ensures HomeOk(fs', t, x) && FirstOk(fs', t, x)
  {
    hide ChainsOk, LengthsOk, RecordsOk, Entries, Exists, Length, FirstCluster, NameOf, WithMode;
    HasFirst(fs, t, x);
    assert HomeOk(fs, t, x) && FirstOk(fs, t, x);
  }

  /** Deleting a record that leads to no directory keeps the card well-formed. */
  lemma ShrunkWellFormed(fs: Fs, t: Tree, fs': Fs, p: nat, j: nat)
    requires Shrunk(fs, t, fs', p, j)
    ensures WellFormed(fs', t)
  {
    hide ChainsOk, LengthsOk, RecordsOk, HomeOk, FirstOk, Entries, Exists, Length, FirstCluster, NameOf, WithMode;
    ShrunkRecords(fs, t, fs', p, j);
    forall x | x in t.dirs
      ensures HomeOk(fs', t, x) && FirstOk(fs', t, x)
    {
      ShrunkHome(fs, t, fs', p, j, x);
    }
    assert Entries(fs', t, 0) == Struck(fs, t, p, j, 0);
  }

  lemma LookupShrunk(fs: Fs, t: Tree, fs': Fs, p: nat, j: nat, y: nat, x: Name)
    requires Shrunk(fs, t, fs', p, j) && y in t.dirs
    requires FindName(Entries(fs, t, y), t.dirs[y].length, x) < t.dirs[y].length
    requires !(y == p && FindName(Entries(fs, t, y), t.dirs[y].length, x) == j)
    ensures var i := FindName(Entries(fs, t, y), t.dirs[y].length, x);
            FindName(Entries(fs', t, y), t.dirs[y].length, x) == i && Entries(fs', t, y)[i] == Entries(fs, t, y)[i]
  {
    hide ChainsOk, LengthsOk, RecordsOk, HomeOk, FirstOk, Entries, Exists, Length, FirstCluster, Matches, WithMode;
    FindNameIs(Entries(fs', t, y), t.dirs[y].length, x, FindName(Entries(fs, t, y), t.dirs[y].length, x));
  }

  lemma SeesShrunk(fs: Fs, t: Tree, fs': Fs, p: nat, j: nat, y: nat, n: nat)
    requires Shrunk(fs, t, fs', p, j) && y in t.dirs
    ensures Sees(fs, t, y, n) <==> Sees(fs', t, y, n)
  {
    hide ChainsOk, LengthsOk, RecordsOk, HomeOk, Entries, Exists, Length, FirstCluster, WithMode;
    HasFirst(fs, t, y);
    assert FirstOk(fs, t, y);
  }

  /** A path that led to another record still leads to it. */
  lemma {:induction false} FindShrunk(fs: Fs, t: Tree, fs': Fs, p: nat, j: nat, names: seq<Name>, y: nat, n: nat)
    requires Shrunk(fs, t, fs', p, j) && WellFormed(fs', t)
    requires names != [] && OnDirs(fs, t, names, y, n)
    requires Find(fs, t, names, y, n).Found? && Find(fs, t, names, y, n) != Found(p, j)
    ensures OnDirs(fs', t, names, y, n) && Find(fs', t, names, y, n) == Find(fs, t, names, y, n)
    decreases |names|
  {
    hide ChainsOk, LengthsOk, RecordsOk, HomeOk, FirstOk, Entries, Exists, Length, FirstCluster, Given, Sees, FindName;
    SeesShrunk(fs, t, fs', p, j, y, n);
    LookupShrunk(fs, t, fs', p, j, y, names[0]);
    if |names| > 1 {
      var r := Entries(fs, t, y)[FindName(Entries(fs, t, y), t.dirs[y].length, names[0])];
      FindShrunk(fs, t, fs', p, j, names[1..], FirstCluster(r), Length(r));
    }
  }

  lemma LeadsHomeShrunk(fs: Fs, t: Tree, fs': Fs, p: nat, j: nat, names: seq<Name>, y: nat)
    requires Shrunk(fs, t, fs', p, j) && WellFormed(fs', t) && LeadsHome(fs, t, names, y)
    ensures LeadsHome(fs', t, names, y)
  {
    hide ChainsOk, LengthsOk, RecordsOk, FirstOk, Entries, Exists, OnDirs, Find;
    assert HomeOk(fs, t, y);
    FindShrunk(fs, t, fs', p, j, names, 0, 0);
  }

  lemma SoleShrunk(fs: Fs, t: Tree, fs': Fs, p: nat, j: nat, y: nat, key: seq<byte>, s: nat)
    requires Shrunk(fs, t, fs', p, j) && y in t.dirs && SoleAt(fs, t, y, key, s) && !(y == p && s == j)
    ensures SoleAt(fs', t, y, key, s) && Entries(fs', t, y)[s] == Entries(fs, t, y)[s]
  {
    hide ChainsOk, LengthsOk, RecordsOk, HomeOk, FirstOk, Entries, Exists, Length, FirstCluster, NameOf, WithMode;
  }

  lemma UnusedShrunk(fs: Fs, t: Tree, fs': Fs, p: nat, j: nat, y: nat, key: seq<byte>)
    requires Shrunk(fs, t, fs', p, j) && y in t.dirs
    requires Unused(fs, t, y, key) || (y == p && SoleAt(fs, t, y, key, j))
    ensures Unused(fs', t, y, key)
  {
    hide ChainsOk, LengthsOk, RecordsOk, HomeOk, FirstOk, Entries, Exists, Length, FirstCluster, NameOf, WithMode;
  }

  /** Of a deleted record the mode alone is changed, to 0x7FFF. */
  lemma StruckInBytes(d: Dirent)
    ensures WithMode(d, MODE_DELETED) == [0xFF, 0x7F] + d[2..]
  {
    assert OfU16(0x7FFF) == [0xFF, 0x7F];
  }

  lemma StruckIsShrunk(fs: Fs, t: Tree, fs': Fs, p: nat, j: nat, c: nat, k: nat)
    requires WellFormed(fs, t) && p in t.dirs && j < t.dirs[p].length
    requires Exists(Entries(fs, t, p)[j]) && FirstCluster(Entries(fs, t, p)[j]) !in t.dirs
    requires SlotSet(fs, fs', t.dirs[p].clusters, j, c, k, WithMode(Entries(fs, t, p)[j], MODE_DELETED))
    ensures Shrunk(fs, t, fs', p, j)
  {
    hide SetRecord, Slots, Pages, RecordsOk, HomeOk, FirstOk, Exists, Length, FirstCluster, IsChain;
    var d := WithMode(Entries(fs, t, p)[j], MODE_DELETED);
    EditSlot(fs, t, p, j, c, k, d);
    forall x | x in t.dirs
      ensures Entries(fs', t, x) == Struck(fs, t, p, j, x)
    {
      TakeUpdate(DirSlots(fs, t, p), j, d, t.dirs[p].length);
    }
  }

  /** The path of a record below a directory. */
  function Joined(path: seq<byte>, name: seq<byte>): seq<byte> {
    path + [SLASH] + name
  }

  /** Deletes the record that `name` has in directory `y`, to which `path` leads; without one there nothing changes. */
  method DeleteVirtualDirent(cache: PageCache, sb: Superblock, path: seq<byte>, name: Name, ghost t: Tree, ghost y: nat, ghost s: nat)
    returns (result: int)
    requires Readable(cache, sb) && LeadsHome(View(cache.store, sb), t, Components(path), y)
    requires Components(name) == [name]
    requires || Unused(View(cache.store, sb), t, y, Key(name))
             || (SoleAt(View(cache.store, sb), t, y, Key(name), s) && FirstCluster(Entries(View(cache.store, sb), t, y)[s]) !in t.dirs)
    modifies cache, cache.slots, cache.card
    ensures Readable(cache, sb)
    ensures if old(Unused(View(cache.store, sb), t, y, Key(name))) then result == -2 && cache.store == old(cache.store)
            else result >= 0 && Shrunk(View(old(cache.store), sb), t, View(cache.store, sb), y, s) && WellFormed(View(cache.store, sb), t)
  {
    hide Represents, ClusterOf, FatCluster, FatEntry, Pages, ClusterPages, Slots, SetRecord, RecordsOk, HomeOk, FirstOk, LengthsOk, IsChain,
         OnDirs, Find, Exists, Length, FirstCluster, Key, NameOf, Components;
    ghost var fs, names := View(cache.store, sb), Components(path);
    ComponentsJoin(path, name);
    FindNamed(fs, t, names, y, name);
    ResolveIsFind(fs, t, names + [name], 0, 0);
    RootIsSelf(fs, t);
    ChainOfIs(fs, y, t.dirs[y].clusters);
    var pathToFile := Joined(path, name);
    var dirEntData;
    result, dirEntData := GetFileData(cache, sb, pathToFile);
    if result >= 0 {
      dirEntData := WithMode(dirEntData, MODE_DELETED);
      ghost var c, k;
      result, c, k := SetFileData(cache, sb, pathToFile, dirEntData);
      StruckIsShrunk(fs, t, View(cache.store, sb), y, s, c, k);
    }
    if result >= 0 {
      ghost var fs' := View(cache.store, sb);
      ShrunkWellFormed(fs, t, fs', y, s);
      LeadsHomeShrunk(fs, t, fs', y, s, names, y);
      ResolveIsFind(fs', t, names, 0, 0);
      RootIsSelf(fs', t);
      var parentDirEnt;
      result, parentDirEnt := GetFileData(cache, sb, path);
    }
  }
}
