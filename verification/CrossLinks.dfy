/** Cross-linked aliases: several records that name the same clusters (mctools.c). */
module CrossLinks {
  import opened Constants
  import opened Arithmetic
  import opened Bytes
  import opened PageCaching
  import opened FatTable
  import opened Chains
  import opened Dirents
  import opened Directory
  import opened DirectoryScan
  import opened RecordUpdate
  import opened Paths
  import opened Resolution
  import opened Files
  import opened DirectoryTree
  import opened Placement
  import opened Growth
  import opened Creation
  import opened Naming
  import opened Removal
  import opened Demand

  datatype FileAlias = FileAlias(mode: nat, name: seq<byte>)

  /** The offset of the first slash, or the length of the name. */
  function SlashAt(name: seq<byte>): (i: nat)
    ensures i <= |name| && (i < |name| ==> name[i] == SLASH)
  {
    if name == [] || name[0] == SLASH then 0 else 1 + SlashAt(name[1..])
  }

  /** The directory in which an alias lives; a name without a slash stands for both. */
  function DirPart(name: seq<byte>): seq<byte> {
    name[..SlashAt(name)]
  }

  function FilePart(name: seq<byte>): seq<byte> {
    if SlashAt(name) < |name| then name[SlashAt(name) + 1..] else name
  }

  /** "a/b" is file "b" in directory "a"; of a name without a slash the code makes both. */
  lemma {:induction false} SplitAtSlash(a: seq<byte>, b: seq<byte>)
    requires 0x2F !in a
    ensures DirPart(a + [0x2F] + b) == a && FilePart(a + [0x2F] + b) == b
    ensures DirPart(a) == a == FilePart(a)
  {
    SlashIsAt(a + [0x2F] + b, |a|);
    SlashIsAt(a, |a|);
  }

  lemma {:induction false} SlashIsAt(name: seq<byte>, i: nat)
    requires i <= |name| && 0x2F !in name[..i] && (i < |name| ==> name[i] == 0x2F)
    ensures SlashAt(name) == i
  {
    if i > 0 {
      assert name[1..][..i - 1] == name[..i][1..] && name[0] in name[..i];
      SlashIsAt(name[1..], i - 1);
    }
  }

  /** How many aliases a request carries: up to the first empty name. */
  function Count(aliases: seq<FileAlias>): (n: nat)
    requires |aliases| == MAX_RPC_FILE_ENTRIES
    ensures n <= MAX_RPC_FILE_ENTRIES
    ensures forall i :: 0 <= i < n ==> aliases[i].name != []
    ensures n < MAX_RPC_FILE_ENTRIES ==> aliases[n].name == []
  {
    CountFrom(aliases, 0)
  }

  function CountFrom(aliases: seq<FileAlias>, i: nat): (n: nat)
    requires |aliases| == MAX_RPC_FILE_ENTRIES && i <= MAX_RPC_FILE_ENTRIES
    ensures i <= n <= MAX_RPC_FILE_ENTRIES
    ensures forall k :: i <= k < n ==> aliases[k].name != []
    ensures n < MAX_RPC_FILE_ENTRIES ==> aliases[n].name == []
    decreases MAX_RPC_FILE_ENTRIES - i
  {
    if i == MAX_RPC_FILE_ENTRIES || aliases[i].name == [] then i else CountFrom(aliases, i + 1)
  }

  /** The record has the alias's own mode and file name; all between is the original's. */
  ghost predicate IsAlias(r: Dirent, a: FileAlias, d: Dirent) {
    a.mode < 0x1_0000 && r == OfU16(a.mode) + d[2..64] + Padded(FilePart(a.name))
  }

  /** So it is read with that mode and under that name, and has the clusters and the length of the original. */
  lemma AliasIsRead(r: Dirent, a: FileAlias, d: Dirent)
    requires IsAlias(r, a, d)
    ensures Mode(r) == a.mode && NameOf(r) == Key(FilePart(a.name)) && FirstCluster(r) == FirstCluster(d) && Length(r) == Length(d)
    ensures r[2..64] == d[2..64]
  {
    hide U16, U32, OfU16, Padded, Key, FilePart;
    WordsAnywhere(r, 0);
    WordsAnywhere(r, 4);
    WordsAnywhere(r, 16);
    WordsAnywhere(d, 4);
    WordsAnywhere(d, 16);
    assert r[2..64] == d[2..64];
    assert r[0..2] == OfU16(a.mode) && r[4..8] == r[2..64][2..6] == d[4..8] && r[16..20] == r[2..64][14..18] == d[16..20];
    assert NameField(r) == Padded(FilePart(a.name));
  }

  /** The record CreateCrossLinkedFiles writes for an alias of the original `d`. */
  function AliasRecord(d: Dirent, a: FileAlias): (r: Dirent)
    requires a.mode < 0x1_0000
    ensures NameOf(r) == Key(FilePart(a.name)) && FirstCluster(r) == FirstCluster(d) && Length(r) == Length(d)
    ensures Exists(r) <==> MODE_EXISTS <= a.mode
    ensures IsAlias(r, a, d)
  {
    var named := WithName(d, FilePart(a.name));
    var r := WithMode(named, a.mode);
    assert NameField(r) == NameField(named);
    r
  }

  /** The alias can be created in directory `e`: its directory is there and its name is not yet in use. */
  ghost predicate Creatable(fs: Fs, t: Tree, a: FileAlias, e: nat) {
    && MODE_EXISTS <= a.mode < 0x1_0000
    && LeadsHome(fs, t, Components(DirPart(a.name)), e)
    && PlainName(FilePart(a.name))
    && Unused(fs, t, e, Key(FilePart(a.name)))
  }

  /** The alias is record `s` of directory `e`, and has everything but the mode and the name from the original `d`. */
  ghost predicate InPlace(fs: Fs, t: Tree, a: FileAlias, e: nat, s: nat, d: Dirent) {
    && LeadsHome(fs, t, Components(DirPart(a.name)), e)
    && PlainName(FilePart(a.name))
    && SoleAt(fs, t, e, Key(FilePart(a.name)), s)
    && IsAlias(Entries(fs, t, e)[s], a, d)
    && FirstCluster(Entries(fs, t, e)[s]) == FirstCluster(d) && Length(Entries(fs, t, e)[s]) == Length(d)
  }

  /** An alias in place is what its path resolves to. */
  lemma InPlaceResolves(fs: Fs, t: Tree, a: FileAlias, e: nat, s: nat, d: Dirent)
    requires InPlace(fs, t, a, e, s, d)
    ensures var o := FromRoot(fs, Components(DirPart(a.name)) + [FilePart(a.name)]);
            && o == Found(e, s) && IsAlias(RecordAt(fs, o), a, d) && Mode(RecordAt(fs, o)) == a.mode
            && FirstCluster(RecordAt(fs, o)) == FirstCluster(d) && Length(RecordAt(fs, o)) == Length(d)
  {
    hide LengthsOk, RecordsOk, HomeOk, FirstOk, OnDirs, Find, Exists, Length, FirstCluster, Key, NameOf, Components;
    FindNamed(fs, t, Components(DirPart(a.name)), e, FilePart(a.name));
    ResolveIsFind(fs, t, Components(DirPart(a.name)) + [FilePart(a.name)], 0, 0);
    AliasIsRead(Entries(fs, t, e)[s], a, d);
    ChainOfIs(fs, e, t.dirs[e].clusters);
  }

  /** An alias whose name is unused resolves to nothing. */
  lemma UnusedIsMissing(fs: Fs, t: Tree, a: FileAlias, e: nat)
    requires LeadsHome(fs, t, Components(DirPart(a.name)), e) && Unused(fs, t, e, Key(FilePart(a.name)))
    ensures FromRoot(fs, Components(DirPart(a.name)) + [FilePart(a.name)]) == Missing
  {
    hide ChainsOk, LengthsOk, RecordsOk, HomeOk, FirstOk, OnDirs, Find, Exists, Length, FirstCluster, Key, NameOf, Components;
    FindNamed(fs, t, Components(DirPart(a.name)), e, FilePart(a.name));
    ResolveIsFind(fs, t, Components(DirPart(a.name)) + [FilePart(a.name)], 0, 0);
  }

  /** The file a path names. */
  ghost predicate NamesFile(fs: Fs, t: Tree, names: seq<Name>, p: nat, j: nat, d: Dirent) {
    && WellFormed(fs, t) && names != [] && OnDirs(fs, t, names, 0, 0) && Find(fs, t, names, 0, 0) == Found(p, j)
    && FirstCluster(Entries(fs, t, p)[j]) !in t.dirs
    && Entries(fs, t, p)[j] == d
  }

  /** No two of the first `n` aliases have the same name in the same directory. */
  ghost predicate NamesApart(aliases: seq<FileAlias>, es: seq<nat>, n: nat)
    requires n <= |aliases| && n <= |es|
  {
    forall i, k :: 0 <= i < k < n && es[i] == es[k] ==> Key(FilePart(aliases[i].name)) != Key(FilePart(aliases[k].name))
  }

  /** One alias more: it is in place, and what was said of the others still holds. */
  lemma OneMore(fs: Fs, t: Tree, fs': Fs, t': Tree, a: FileAlias, e: nat, d: Dirent)
    requires Creatable(fs, t, a, e) && Created(fs, t, fs', t', e, AliasRecord(d, a)) && Addable(t, AliasRecord(d, a))
    ensures Grew(fs, t, fs', t', e, NewSlot(fs, t, e), AliasRecord(d, a))
    ensures InPlace(fs', t', a, e, NewSlot(fs, t, e), d)
  {
    hide ChainsOk, LengthsOk, RecordsOk, HomeOk, FirstOk, OnDirs, Find, Length, FirstCluster, Key, NameOf, Components, Created, PlaceIn, NewSlot,
         Entries, Exists;
    SingleComponent(FilePart(a.name));
    var r, s := AliasRecord(d, a), NewSlot(fs, t, e);
    CreatedGrew(fs, t, fs', t', e, r);
    LeadsHomeGrew(fs, t, fs', t', e, s, r, Components(DirPart(a.name)), e);
    SoleNew(fs, t, fs', t', e, s, r);
  }

  lemma StillInPlace(fs: Fs, t: Tree, fs': Fs, t': Tree, e: nat, s: nat, r: Dirent, a: FileAlias, y: nat, x: nat, d: Dirent)
    requires Grew(fs, t, fs', t', e, s, r) && Unused(fs, t, e, NameOf(r)) && InPlace(fs, t, a, y, x, d) && FirstCluster(d) !in t.dirs
    ensures InPlace(fs', t', a, y, x, d)
  {
    hide ChainsOk, LengthsOk, RecordsOk, HomeOk, FirstOk, OnDirs, Find, Length, FirstCluster, Key, NameOf, Components, Entries, Exists;
    LeadsHomeGrew(fs, t, fs', t', e, s, r, Components(DirPart(a.name)), y);
    SoleGrew(fs, t, fs', t', e, s, r, y, Key(FilePart(a.name)), x);
  }

  lemma StillCreatable(fs: Fs, t: Tree, fs': Fs, t': Tree, e: nat, s: nat, r: Dirent, a: FileAlias, y: nat)
    requires Grew(fs, t, fs', t', e, s, r) && Unused(fs, t, e, NameOf(r)) && Creatable(fs, t, a, y)
    requires !(y == e && Key(FilePart(a.name)) == NameOf(r))
    ensures Creatable(fs', t', a, y)
  {
    hide ChainsOk, LengthsOk, RecordsOk, HomeOk, FirstOk, OnDirs, Find, Length, FirstCluster, Key, NameOf, Components, Entries, Exists;
    LeadsHomeGrew(fs, t, fs', t', e, s, r, Components(DirPart(a.name)), y);
    UnusedGrew(fs, t, fs', t', e, s, r, y, Key(FilePart(a.name)));
  }

  lemma StillNamesFile(fs: Fs, t: Tree, fs': Fs, t': Tree, e: nat, s: nat, r: Dirent, names: seq<Name>, p: nat, j: nat, d: Dirent)
    requires Grew(fs, t, fs', t', e, s, r) && Unused(fs, t, e, NameOf(r)) && NamesFile(fs, t, names, p, j, d)
    ensures NamesFile(fs', t', names, p, j, d)
  {
    hide ChainsOk, LengthsOk, RecordsOk, HomeOk, FirstOk, OnDirs, Length, FirstCluster, Key, NameOf, Entries, Exists;
    FindGrew(fs, t, fs', t', e, s, r, names, 0, 0, 0);
  }

  /** The first `i` of `n` aliases are in place, the others can still be created, and the original is what it was. */
  ghost predicate Progress(fs: Fs, t: Tree, aliases: seq<FileAlias>, es: seq<nat>, slots: seq<nat>, i: nat, n: nat,
                           names: seq<Name>, p: nat, j: nat, d: Dirent)
    requires n <= |aliases| && n <= |es|
  {
    && i <= n && |slots| == i
    && (forall k {:trigger slots[k]} :: 0 <= k < i ==> InPlace(fs, t, aliases[k], es[k], slots[k], d) && !(es[k] == p && slots[k] == j))
    && (forall k {:trigger aliases[k]} :: i <= k < n ==> Creatable(fs, t, aliases[k], es[k]))
    && NamesFile(fs, t, names, p, j, d)
    && (FirstCluster(d) == END || FirstCluster(d) in t.files)
  }

  lemma ProgressStep(fs: Fs, t: Tree, fs': Fs, t': Tree, aliases: seq<FileAlias>, es: seq<nat>, slots: seq<nat>, i: nat, n: nat,
                     names: seq<Name>, p: nat, j: nat, d: Dirent)
    requires n <= |aliases| && n <= |es| && i < n
    requires Progress(fs, t, aliases, es, slots, i, n, names, p, j, d) && NamesApart(aliases, es, n)
    requires Creatable(fs, t, aliases[i], es[i]) && Created(fs, t, fs', t', es[i], AliasRecord(d, aliases[i]))
    ensures Progress(fs', t', aliases, es, slots + [NewSlot(fs, t, es[i])], i + 1, n, names, p, j, d)
  {
    hide InPlace, Creatable, NamesFile, WellFormed, Created, Length, FirstCluster, NameOf, Exists, Key, FilePart, NewSlot, Grew;
    CreatableUnused(fs, t, aliases[i], es[i]);
    var a, e, r, s := aliases[i], es[i], AliasRecord(d, aliases[i]), NewSlot(fs, t, es[i]);
    FileNotDir(fs, t, names, p, j, d);
    OneMore(fs, t, fs', t', a, e, d);
    forall k | 0 <= k < i
      ensures InPlace(fs', t', aliases[k], es[k], slots[k], d)
    {
      StillInPlace(fs, t, fs', t', e, s, r, aliases[k], es[k], slots[k], d);
    }
    forall k | i < k < n
      ensures Creatable(fs', t', aliases[k], es[k])
    {
      StillCreatable(fs, t, fs', t', e, s, r, aliases[k], es[k]);
    }
    StillNamesFile(fs, t, fs', t', e, s, r, names, p, j, d);
    NewIsAnother(fs, t, fs', t', e, s, r, names, p, j, d);
    CreatedFiles(fs, t, fs', t', e, r);
  }

  lemma CreatableUnused(fs: Fs, t: Tree, a: FileAlias, e: nat)
    requires Creatable(fs, t, a, e)
    ensures WellFormed(fs, t) && e in t.dirs && Unused(fs, t, e, Key(FilePart(a.name))) && MODE_EXISTS <= a.mode < 0x1_0000
  {
  }

  lemma NewIsAnother(fs: Fs, t: Tree, fs': Fs, t': Tree, e: nat, s: nat, r: Dirent, names: seq<Name>, p: nat, j: nat, d: Dirent)
    requires Grew(fs, t, fs', t', e, s, r) && NamesFile(fs, t, names, p, j, d)
    ensures !(e == p && s == j)
  {
  }

  lemma FileNotDir(fs: Fs, t: Tree, names: seq<Name>, p: nat, j: nat, d: Dirent)
    requires NamesFile(fs, t, names, p, j, d)
    ensures FirstCluster(d) !in t.dirs
  {
  }

  /** Every file has the same pages on both cards. */
  ghost predicate SameFiles(fs: Fs, fs': Fs, t: Tree) {
    forall f :: f in t.files ==> IsDir(fs, t.files[f]) && IsDir(fs', t.files[f]) && Pages(fs', t.files[f]) == Pages(fs, t.files[f])
  }

  lemma CreatedFiles(fs: Fs, t: Tree, fs': Fs, t': Tree, e: nat, d: Dirent)
    requires Created(fs, t, fs', t', e, d)
    ensures t'.files == t.files && SameFiles(fs, fs', t)
  {
    forall f | f in t.files
      ensures IsDir(fs, t.files[f]) && IsDir(fs', t'.files[f])
    {
      assert Heads(fs, f, t.files[f]) && Heads(fs', f, t'.files[f]);
    }
  }

  /** Creates one alias of the record `dirEnt`. */
  method CreateAlias(cache: PageCache, sb: Superblock, dirEnt: Dirent, a: FileAlias, ghost t: Tree, ghost e: nat)
    returns (result: int, newDirEnt: Dirent, ghost t': Tree)
    requires Readable(cache, sb) && Creatable(View(cache.store, sb), t, a, e)
    requires FirstCluster(dirEnt) == END || FirstCluster(dirEnt) in t.files
    requires PlaceIn(View(cache.store, sb), t, e).NoPlace? ==> FirstFree(Fat(cache.store, sb)) < sb.clusters
    modifies cache, cache.slots, cache.card
    ensures Readable(cache, sb) && result >= 0
    ensures a.mode < 0x1_0000 && newDirEnt == AliasRecord(dirEnt, a)
    ensures Created(View(old(cache.store), sb), t, View(cache.store, sb), t', e, newDirEnt)
  {
    hide Represents, ClusterOf, FatCluster, FatEntry, Pages, Slots, ChainsOk, LengthsOk, RecordsOk, HomeOk, FirstOk, OnDirs, Find, FindPlace,
         Length, FirstCluster, NameOf, Exists, Key, Components, FirstFree, Created;
    newDirEnt := AliasRecord(dirEnt, a);
    HomeLeads(View(cache.store, sb), t, Components(DirPart(a.name)), e);
    result, t' := CreateNewVirtualDirent(cache, sb, DirPart(a.name), newDirEnt, t, e, t.dirs[e].homeDir, t.dirs[e].homeSlot);
  }

  /** The name and the mode of an alias replace those of the alias before. */
  lemma AliasAgain(d: Dirent, a: FileAlias, b: FileAlias)
    requires a.mode < 0x1_0000 && b.mode < 0x1_0000
    ensures AliasRecord(AliasRecord(d, a), b) == AliasRecord(d, b)
  {
    var x, y := AliasRecord(AliasRecord(d, a), b), AliasRecord(d, b);
    assert forall k :: 0 <= k < DIRENT_SIZE ==> x[k] == y[k];
  }

  /** Every path that led to a directory still leads to it. */
  ghost predicate HomesKept(fs: Fs, t: Tree, fs': Fs, t': Tree) {
    forall names, e :: LeadsHome(fs, t, names, e) ==> LeadsHome(fs', t', names, e)
  }

  lemma CreatedHomes(fs: Fs, t: Tree, fs': Fs, t': Tree, a: FileAlias, e: nat, d: Dirent)
    requires Creatable(fs, t, a, e) && Created(fs, t, fs', t', e, AliasRecord(d, a)) && Addable(t, AliasRecord(d, a))
    ensures HomesKept(fs, t, fs', t')
  {
    hide LeadsHome, Created, Addable, NewSlot, Grew, Key, NameOf;
    CreatableUnused(fs, t, a, e);
    var r := AliasRecord(d, a);
    CreatedGrew(fs, t, fs', t', e, r);
    forall names, y | LeadsHome(fs, t, names, y)
      ensures LeadsHome(fs', t', names, y)
    {
      LeadsHomeGrew(fs, t, fs', t', e, NewSlot(fs, t, e), r, names, y);
    }
  }

  /** The buffer the records of the aliases are built in: the original, or the alias before. */
  ghost predicate Buffered(d: Dirent, aliases: seq<FileAlias>, i: nat, newDirEnt: Dirent)
    requires i <= |aliases|
  {
    if i == 0 then newDirEnt == d else aliases[i - 1].mode < 0x1_0000 && newDirEnt == AliasRecord(d, aliases[i - 1])
  }

  /** The turn of alias `i`. */
  method CreateNext(cache: PageCache, sb: Superblock, last: Dirent, aliases: seq<FileAlias>, i: nat,
                    ghost t: Tree, ghost es: seq<nat>, ghost slots: seq<nat>, ghost n: nat, ghost names: seq<Name>, ghost p: nat, ghost j: nat, ghost d: Dirent)
    returns (result: int, newDirEnt: Dirent, ghost t': Tree, ghost slots': seq<nat>)
    requires Readable(cache, sb) && i < n <= |aliases| && n <= |es|
    requires Progress(View(cache.store, sb), t, aliases, es, slots, i, n, names, p, j, d) && NamesApart(aliases, es, n)
    requires Buffered(d, aliases, i, last) && Enough(View(cache.store, sb), t, es, i, n)
    modifies cache, cache.slots, cache.card
    ensures Readable(cache, sb) && result >= 0
    ensures Progress(View(cache.store, sb), t', aliases, es, slots', i + 1, n, names, p, j, d)
    ensures Buffered(d, aliases, i + 1, newDirEnt)
    ensures Enough(View(cache.store, sb), t', es, i + 1, n)
    ensures t'.files == t.files && SameFiles(View(old(cache.store), sb), View(cache.store, sb), t)
    ensures HomesKept(View(old(cache.store), sb), t, View(cache.store, sb), t')
  {
    hide Represents, ClusterOf, FatCluster, FatEntry, Pages, Slots, InPlace, Creatable, Created, ChainsOk, LengthsOk, RecordsOk,
         HomeOk, FirstOk, OnDirs, Find, FindPlace, Length, FirstCluster, NameOf, Exists, Key, FirstFree, AliasRecord, NamesFile, SameFiles, LeadsHome, PlaceIn, Enough;
    ghost var fs := View(cache.store, sb);
    CreatableUnused(fs, t, aliases[i], es[i]);
    NeededNow(fs, t, es, i, n);
    if i > 0 {
      AliasAgain(d, aliases[i - 1], aliases[i]);
    }
    result, newDirEnt, t' := CreateAlias(cache, sb, last, aliases[i], t, es[i]);
    slots' := slots + [NewSlot(fs, t, es[i])];
    ProgressStep(fs, t, View(cache.store, sb), t', aliases, es, slots, i, n, names, p, j, d);
    CreatedFiles(fs, t, View(cache.store, sb), t', es[i], newDirEnt);
    NeededNext(fs, t, View(cache.store, sb), t', es, i, n, newDirEnt);
    CreatedHomes(fs, t, View(cache.store, sb), t', aliases[i], es[i], d);
  }

  /** Creates the aliases of the file at `path`; each is a new record that names the clusters of the original. */
  method CreateCrossLinkedFiles(cache: PageCache, sb: Superblock, path: seq<byte>, aliases: seq<FileAlias>,
                                ghost t: Tree, ghost es: seq<nat>, ghost p: nat, ghost j: nat, ghost d: Dirent)
    returns (result: int, ghost t': Tree, ghost slots: seq<nat>)
    requires |aliases| == |es| == MAX_RPC_FILE_ENTRIES && Readable(cache, sb)
    requires Progress(View(cache.store, sb), t, aliases, es, [], 0, Count(aliases), Components(path), p, j, d)
    requires d == Entries(View(cache.store, sb), t, p)[j]
    requires NamesApart(aliases, es, Count(aliases)) && Enough(View(cache.store, sb), t, es, 0, Count(aliases))
    modifies cache, cache.slots, cache.card
    ensures Readable(cache, sb) && result == Count(aliases)
    ensures Progress(View(cache.store, sb), t', aliases, es, slots, Count(aliases), Count(aliases), Components(path), p, j, d)
    ensures t'.files == t.files && SameFiles(View(old(cache.store), sb), View(cache.store, sb), t)
    ensures HomesKept(View(old(cache.store), sb), t, View(cache.store, sb), t')
  {
    hide Represents, ClusterOf, FatCluster, FatEntry, Pages, Slots, InPlace, Creatable, ChainsOk, LengthsOk, RecordsOk, HomeOk, FirstOk, OnDirs,
         Find, Components, Enough, NamesApart, LeadsHome, Progress, SameFiles, HomesKept, Buffered, NamesFile, WellFormed;
    t', slots := t, [];
    ghost var fs, n, names := View(cache.store, sb), Count(aliases), Components(path);
    Begins(fs, t, aliases, es, n, names, p, j, d);
    var dirEnt;
    result, dirEnt := ReadOriginal(cache, sb, path, t, p, j, d);
    result := 0;
    var i, newDirEnt := 0, dirEnt;
    while i < MAX_RPC_FILE_ENTRIES && aliases[i].name != []
      invariant i <= n && Readable(cache, sb) && result == i
      invariant Progress(View(cache.store, sb), t', aliases, es, slots, i, n, names, p, j, d)
      invariant Enough(View(cache.store, sb), t', es, i, n)
      invariant t'.files == t.files && SameFiles(fs, View(cache.store, sb), t) && HomesKept(fs, t, View(cache.store, sb), t')
      invariant Buffered(d, aliases, i, newDirEnt)
    {
      ghost var fs1, t1 := View(cache.store, sb), t';
      var added;
      added, newDirEnt, t', slots := CreateNext(cache, sb, newDirEnt, aliases, i, t1, es, slots, n, names, p, j, d);
      GoesOn(fs, t, fs1, t1, View(cache.store, sb), t');
      if added >= 0 {
        result := result + 1;
      }
      i := i + 1;
    }
  }

  lemma Begins(fs: Fs, t: Tree, aliases: seq<FileAlias>, es: seq<nat>, n: nat, names: seq<Name>, p: nat, j: nat, d: Dirent)
    requires n <= |aliases| && n <= |es| && Progress(fs, t, aliases, es, [], 0, n, names, p, j, d)
    ensures SameFiles(fs, fs, t) && HomesKept(fs, t, fs, t) && Buffered(d, aliases, 0, d) && NamesFile(fs, t, names, p, j, d)
  {
    FilesStay(fs, t);
  }

  lemma GoesOn(fs: Fs, t: Tree, fs1: Fs, t1: Tree, fs2: Fs, t2: Tree)
    requires SameFiles(fs, fs1, t) && HomesKept(fs, t, fs1, t1) && t1.files == t.files
    requires SameFiles(fs1, fs2, t1) && HomesKept(fs1, t1, fs2, t2)
    ensures SameFiles(fs, fs2, t) && HomesKept(fs, t, fs2, t2)
  {
    hide LeadsHome, IsDir, Pages;
  }

  /** Reads the record of the file that is to get aliases. */
  method ReadOriginal(cache: PageCache, sb: Superblock, path: seq<byte>, ghost t: Tree, ghost p: nat, ghost j: nat, ghost d: Dirent)
    returns (result: int, dirEnt: Dirent)
    requires Readable(cache, sb) && NamesFile(View(cache.store, sb), t, Components(path), p, j, d)
    requires d == Entries(View(cache.store, sb), t, p)[j]
    modifies cache, cache.slots, cache.card
    ensures Readable(cache, sb) && cache.store == old(cache.store)
    ensures result == 0 && dirEnt == d
  {
    hide Represents, ClusterOf, FatCluster, FatEntry, Pages, Slots, ChainsOk, LengthsOk, RecordsOk, HomeOk, FirstOk, OnDirs, Find, Components;
    ghost var fs := View(cache.store, sb);
    ResolveIsFind(fs, t, Components(path), 0, 0);
    RootIsSelf(fs, t);
    DirChain(fs, t, p);
    result, dirEnt := GetFileData(cache, sb, path);
  }

  lemma FilesStay(fs: Fs, t: Tree)
    requires ChainsOk(fs, t)
    ensures SameFiles(fs, fs, t)
  {
    forall f | f in t.files
      ensures IsDir(fs, t.files[f])
    {
      assert Heads(fs, f, t.files[f]);
    }
  }
}
