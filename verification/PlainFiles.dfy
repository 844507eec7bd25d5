/**
 * Where the walk along a path leads when a component of it is a plain file (mctools.c, GetSetFileData): the directory
 * attribute is never looked at, so the file's data are taken for records.
 */
module PlainFiles {
  import opened Arithmetic
  import opened Bytes
  import opened Chains
  import opened Dirents
  import opened Directory
  import opened RecordUpdate
  import opened Paths
  import opened Resolution

  /** Where a textbook lookup gives up: at a record that is not entered, with the components still to go; or nowhere. */
  datatype Halt = Nowhere | At(d: Dirent, names: seq<Name>)

  ghost function HaltOf(fs: Fs, names: seq<Name>, c: nat, nRecords: nat): (h: Halt)
    requires names != []
    ensures h.At? ==> h.names != [] && NotEntered(h.d)
    decreases |names|
  {
    if !HasChain(fs, c) || Lookup(fs, c, nRecords, names[0]) == |SlotsFrom(fs, c)| || |names| == 1 then Nowhere
    else
      var d := SlotsFrom(fs, c)[Lookup(fs, c, nRecords, names[0])];
      if Descends(d) then HaltOf(fs, names[1..], FirstCluster(d), Length(d)) else At(d, names[1..])
  }

  /** The clusters of the directories that a textbook lookup reads. */
  ghost function Way(fs: Fs, names: seq<Name>, c: nat, nRecords: nat): set<nat>
    requires names != []
    decreases |names|
  {
    if !HasChain(fs, c) then {} else
    var here := set x | x in ChainOf(fs, c);
    if Lookup(fs, c, nRecords, names[0]) == |SlotsFrom(fs, c)| || |names| == 1 then here
    else
      var d := SlotsFrom(fs, c)[Lookup(fs, c, nRecords, names[0])];
      if Descends(d) then here + Way(fs, names[1..], FirstCluster(d), Length(d)) else here
  }

  /** The same card with other contents, except in the given clusters. */
  ghost predicate SameIn(fs: Fs, fs': Fs, clusters: set<nat>) {
    && FsOk(fs) && FsOk(fs') && fs'.fat == fs.fat && fs'.ppc == fs.ppc && fs'.n == fs.n
    && forall c :: c in clusters && c < fs.n ==> ClusterPages(fs', c) == ClusterPages(fs, c)
  }

  lemma {:induction false} SamePages(fs: Fs, fs': Fs, cs: seq<nat>)
    requires SameIn(fs, fs', set x | x in cs) && forall i :: 0 <= i < |cs| ==> cs[i] < fs.n
    ensures Pages(fs', cs) == Pages(fs, cs)
    decreases |cs|
  {
    if cs != [] {
      SamePages(fs, fs', cs[..|cs| - 1]);
      assert cs[|cs| - 1] in cs;
    }
  }

  lemma SameSlots(fs: Fs, fs': Fs, c: nat)
    requires FsOk(fs) && HasChain(fs, c) && SameIn(fs, fs', set x | x in ChainOf(fs, c))
    ensures HasChain(fs', c) && ChainOf(fs', c) == ChainOf(fs, c) && SlotsFrom(fs', c) == SlotsFrom(fs, c)
  {
    hide Pages;
    var cs := ChainOf(fs, c);
    assert Heads(fs', c, cs);
    ChainOfIs(fs', c, cs);
    SamePages(fs, fs', cs);
  }

  lemma SameChains(fs: Fs, fs': Fs, c: nat)
    requires FsOk(fs) && FsOk(fs') && fs'.fat == fs.fat && fs'.n == fs.n
    ensures HasChain(fs', c) <==> HasChain(fs, c)
  {
    if HasChain(fs, c) {
      assert Heads(fs', c, ChainOf(fs, c));
    } else if HasChain(fs', c) {
      assert Heads(fs, c, ChainOf(fs', c));
    }
  }

  /** Nothing is found below a record that is not entered, so the textbook lookup gives up exactly there. */
  lemma {:induction false} HaltsExactlyThroughNotEntered(fs: Fs, names: seq<Name>, c: nat, nRecords: nat)
    requires names != []
    ensures LeadsThrough(fs, names, c, nRecords, NotEntered) <==> HaltOf(fs, names, c, nRecords).At?
    decreases |names|
  {
    hide LeadsThrough;
    if !HasChain(fs, c) || Lookup(fs, c, nRecords, names[0]) == |SlotsFrom(fs, c)| {
      LeadsNowhere(fs, names, c, nRecords, NotEntered);
    } else if |names| > 1 {
      var j := Lookup(fs, c, nRecords, names[0]);
      var d := SlotsFrom(fs, c)[j];
      LeadsNext(fs, names, c, nRecords, j, NotEntered);
      if Descends(d) {
        HaltsExactlyThroughNotEntered(fs, names[1..], FirstCluster(d), Length(d));
      }
    } else {
      ShortLeadsNowhere(fs, names, c, nRecords, NotEntered);
    }
  }

  /** The walk does find something where the textbook lookup gives up. */
  ghost predicate GoesOn(fs: Fs, h: Halt)
    requires h.At? && h.names != []
  {
    FirstCluster(h.d) == END || Resolve(fs, h.names, FirstCluster(h.d), Length(h.d)) != Missing
  }

  /** On a card with the same directories on the way both lookups come to the same place. */
  lemma {:induction false} SameWay(fs: Fs, fs': Fs, names: seq<Name>, c: nat, nRecords: nat)
    requires names != [] && SameIn(fs, fs', Way(fs, names, c, nRecords))
    ensures HaltOf(fs', names, c, nRecords) == HaltOf(fs, names, c, nRecords)
    ensures var h := HaltOf(fs, names, c, nRecords);
            h.At? ==> (Resolve(fs', names, c, nRecords) == Missing <==> !GoesOn(fs', h))
    decreases |names|
  {
    hide ClusterPages, SlotsFrom, Bound, FindName;
    SameChains(fs, fs', c);
    if HasChain(fs, c) {
      SameSlots(fs, fs', c);
      var j := Lookup(fs, c, nRecords, names[0]);
      if j < |SlotsFrom(fs, c)| && |names| > 1 {
        var d := SlotsFrom(fs, c)[j];
        if Descends(d) {
          SameWay(fs, fs', names[1..], FirstCluster(d), Length(d));
        }
      }
    }
  }

  /** A record of the given name, without clusters of its own, and with a length that makes a scan look at it. */
  function Lure(x: Name): (d: Dirent)
    ensures Exists(d) && Matches(x, d) && Length(d) == 1 && FirstCluster(d) == END
  {
    var zero: Dirent := seq(DIRENT_SIZE, _ => 0);
    PatchWord(zero, 16, END, 16);
    WithName(WithMode(WithLength(Patch(zero, 16, OfU32(END)), 1), 0x8417), x)
  }

  /** The card with such a record as the first page of cluster `e`. */
  ghost function Planted(fs: Fs, e: nat, x: Name): (r: Fs)
    requires FsOk(fs) && e < fs.n
    ensures FsOk(r) && r.fat == fs.fat && r.ppc == fs.ppc && r.n == fs.n
  {
    SetRecord(fs, e, 0, Lure(x))
  }

  lemma PlantedBeside(fs: Fs, e: nat, x: Name, c: nat)
    requires FsOk(fs) && e < fs.n && c < fs.n && c != e
    ensures ClusterPages(Planted(fs, e, x), c) == ClusterPages(fs, c)
  {
    hide Lure, FsOk;
    ItemFits(e, fs.n, fs.ppc);
    ItemFits(c, fs.n, fs.ppc);
    if c < e { ItemLe(c + 1, e, fs.ppc); } else { ItemLe(e + 1, c, fs.ppc); }
  }

  lemma PlantedElsewhere(fs: Fs, e: nat, x: Name, clusters: set<nat>)
    requires FsOk(fs) && e < fs.n && e !in clusters
    ensures SameIn(fs, Planted(fs, e, x), clusters)
  {
    hide Planted, ClusterPages;
    forall c | c in clusters && c < fs.n
      ensures ClusterPages(Planted(fs, e, x), c) == ClusterPages(fs, c)
    {
      PlantedBeside(fs, e, x, c);
    }
  }

  lemma PlantedThere(fs: Fs, e: nat, x: Name)
    requires FsOk(fs) && e < fs.n
    ensures RecordOf(ClusterPages(Planted(fs, e, x), e)[0]) == Lure(x)
  {
    hide Lure;
    ItemFits(e, fs.n, fs.ppc);
  }

  /** The walk finds the record in the file's data. */
  lemma PlantedIsFound(fs: Fs, e: nat, names: seq<Name>, nRecords: nat)
    requires FsOk(fs) && HasChain(fs, e) && names != []
    ensures e < fs.n && Resolve(Planted(fs, e, names[0]), names, e, nRecords) != Missing
  {
    hide Planted, Lure, ClusterPages;
    var cs := ChainOf(fs, e);
    var fs' := Planted(fs, e, names[0]);
    assert Heads(fs', e, cs);
    ChainOfIs(fs', e, cs);
    PlantedThere(fs, e, names[0]);
    PagesAt(fs', cs, 0, 0);
    assert SlotsFrom(fs', e)[0] == Lure(names[0]);
    var rs := SlotsFrom(fs', e);
    assert 0 < Bound(rs, nRecords) && FindName(rs, Bound(rs, nRecords), names[0]) == 0;
    assert Lookup(fs', e, nRecords, names[0]) == 0;
  }

  /**
   * The walk along a path agrees with a textbook lookup, whatever plain files contain, exactly if no record in front of the
   * path's end is a plain file or a directory without clusters. The file that the path leads to, if it does, has its first
   * cluster for itself.
   */
  lemma ResolveMeetsReference(fs: Fs, names: seq<Name>)
    requires names != [] && RootSelf(fs)
    requires var h := HaltOf(fs, names, 0, 0);
             h.At? ==> FirstCluster(h.d) !in Way(fs, names, 0, 0)
    ensures (forall fs' :: SameIn(fs, fs', Way(fs, names, 0, 0)) && RootSelf(fs') ==> FromRoot(fs', names) == Reference(fs', names, 0, 0))
            <==> !LeadsThrough(fs, names, 0, 0, NotEntered)
  {
    hide LeadsThrough, Resolve, Reference, Way, HaltOf, Planted;
    var way, h := Way(fs, names, 0, 0), HaltOf(fs, names, 0, 0);
    HaltsExactlyThroughNotEntered(fs, names, 0, 0);
    forall fs' | SameIn(fs, fs', way)
      ensures FromRoot(fs', names) == Reference(fs', names, 0, 0) <==> h.At? ==> !GoesOn(fs', h)
    {
      SameWay(fs, fs', names, 0, 0);
      HaltsExactlyThroughNotEntered(fs', names, 0, 0);
      ReferenceFollowsWalk(fs', names, 0, 0);
    }
    if h.At? {
      var e := FirstCluster(h.d);
      if HasChain(fs, e) && e != END {
        PlantedIsFound(fs, e, h.names, Length(h.d));
        PlantedElsewhere(fs, e, h.names[0], way);
        var fs' := Planted(fs, e, h.names[0]);
        RootStaysSelf(fs, fs', names);
        assert GoesOn(fs', h);
      } else {
        NothingChainedIsBroken(fs, h);
        assert SameIn(fs, fs, way);
      }
    }
  }

  lemma NothingChainedIsBroken(fs: Fs, h: Halt)
    requires h.At? && h.names != [] && (FirstCluster(h.d) == END || !HasChain(fs, FirstCluster(h.d)))
    ensures GoesOn(fs, h)
  {
  }

  /** The root is on every way. */
  lemma RootStaysSelf(fs: Fs, fs': Fs, names: seq<Name>)
    requires names != [] && RootSelf(fs) && SameIn(fs, fs', Way(fs, names, 0, 0)) && HaltOf(fs, names, 0, 0).At?
    ensures RootSelf(fs')
  {
    assert ChainOf(fs, 0)[0] == 0;
    assert ClusterPages(fs', 0) == ClusterPages(fs, 0);
  }

  /**
   * A card of which the root takes two clusters, with a plain file as its third record, and a file whose first page looks
   * like a record of the name `x`.
   */
  ghost predicate RecordShapedFile(fs: Fs, f: Name, x: Name) {
    && RootSelf(fs) && fs.ppc == 2 && 3 <= fs.n && fs.fat[0] == Link(1) && fs.fat[1] == END && fs.fat[2] == END
    && var dot, dots := RecordOf(ClusterPages(fs, 0)[0]), RecordOf(ClusterPages(fs, 0)[1]);
       var file, page := RecordOf(ClusterPages(fs, 1)[0]), RecordOf(ClusterPages(fs, 2)[0]);
       && Length(dot) == 3 && !Matches(f, dot) && !Matches(f, dots)
       && Exists(file) && Matches(f, file) && !IsDirectory(file) && FirstCluster(file) == 2 && 0 < Length(file)
       && Exists(page) && Matches(x, page)
  }

  lemma ShortChain(fs: Fs, cs: seq<nat>)
    requires IsDir(fs, cs) && fs.ppc == 2
    ensures HasChain(fs, cs[0]) && ChainOf(fs, cs[0]) == cs && SlotsFrom(fs, cs[0]) == Slots(fs, cs)
    ensures |Slots(fs, cs)| == 2 * |cs|
    ensures forall i :: 0 <= i < |cs| ==>
              Slots(fs, cs)[2 * i] == RecordOf(ClusterPages(fs, cs[i])[0]) && Slots(fs, cs)[2 * i + 1] == RecordOf(ClusterPages(fs, cs[i])[1])
  {
    hide ClusterPages;
    assert Heads(fs, cs[0], cs);
    ChainOfIs(fs, cs[0], cs);
    TimesIsProduct(|cs|, 2);
    forall i | 0 <= i < |cs|
      ensures Slots(fs, cs)[2 * i] == RecordOf(ClusterPages(fs, cs[i])[0]) && Slots(fs, cs)[2 * i + 1] == RecordOf(ClusterPages(fs, cs[i])[1])
    {
      TimesIsProduct(i, 2);
      PagesAt(fs, cs, i, 0);
      PagesAt(fs, cs, i, 1);
    }
  }

  /** The walk takes the file's data for records and finds one in them; the textbook lookup finds nothing below a plain file. */
  lemma FoundInFileData(fs: Fs, f: Name, x: Name)
    requires RecordShapedFile(fs, f, x)
    ensures FromRoot(fs, [f, x]) == Found(2, 0)
    ensures Reference(fs, [f, x], 0, 0) == Missing
  {
    hide Exists, Matches, Length, FirstCluster, IsDirectory, SlotsFrom, ClusterPages, Slots;
    assert IsChain(fs.fat, fs.n, [0, 1]) && IsChain(fs.fat, fs.n, [2]);
    ShortChain(fs, [0, 1]);
    ShortChain(fs, [2]);
    assert SlotsFrom(fs, 0)[0] == RecordOf(ClusterPages(fs, 0)[0]) && SlotsFrom(fs, 0)[1] == RecordOf(ClusterPages(fs, 0)[1]);
    assert SlotsFrom(fs, 0)[2] == RecordOf(ClusterPages(fs, 1)[0]) && SlotsFrom(fs, 2)[0] == RecordOf(ClusterPages(fs, 2)[0]);
    assert Lookup(fs, 0, 0, f) == 2;
    assert Lookup(fs, 2, Length(SlotsFrom(fs, 0)[2]), x) == 0;
    assert [f, x][1..] == [x] && Resolve(fs, [x], 2, Length(SlotsFrom(fs, 0)[2])) == Found(2, 0);
  }

  /** There are such cards. */
  lemma RecordShapedFileExists()
    ensures exists fs :: RecordShapedFile(fs, [102], [120])
  {
    var start, file := FileRecord(512);
    var zero: Dirent := seq(DIRENT_SIZE, _ => 0);
    var dot := WithName(WithMode(WithLength(start, 3), 0x8427), [46]);
    var dots := WithName(WithMode(start, 0x8427), [46, 46]);
    ShortKeys();
    CardOf(dot, dots, file, Lure([120]), zero);
  }

  /** A record of zeros, and a plain file of the name "f" that starts with cluster 2. */
  lemma FileRecord(length: u32) returns (zero: Dirent, file: Dirent)
    ensures FirstCluster(zero) == 0
    ensures Exists(file) && NameOf(file) == Key([102]) && !IsDirectory(file) && FirstCluster(file) == 2 && Length(file) == length
  {
    zero := seq(DIRENT_SIZE, _ => 0);
    PatchWord(zero, 16, 2, 16);
    file := WithName(WithMode(WithLength(Patch(zero, 16, OfU32(2)), length), 0x8417), [102]);
  }

  lemma CardOf(dot: Dirent, dots: Dirent, file: Dirent, page: Dirent, zero: Dirent)
    requires FirstCluster(dot) == FirstCluster(dots) == 0 && Length(dot) == 3
    requires NameOf(dot) == [46] && NameOf(dots) == [46, 46] && NameOf(file) == [102] == Key([102]) && Matches([120], page)
    requires Exists(file) && !IsDirectory(file) && FirstCluster(file) == 2 && 0 < Length(file) && Exists(page)
    ensures RecordShapedFile(Fs([Link(1), END, END], [dot, dots, file, zero, page, zero], 2, 3), [102], [120])
  {
    hide NameOf, Exists, Length, FirstCluster, IsDirectory, Key;
    var fs := Fs([Link(1), END, END], [dot, dots, file, zero, page, zero], 2, 3);
    assert Times(3, 2) == Times(2, 2) + 2 && Times(2, 2) == Times(1, 2) + 2 && Times(1, 2) == Times(0, 2) + 2;
    assert ClusterPages(fs, 0) == [dot, dots] && ClusterPages(fs, 1) == [file, zero] && ClusterPages(fs, 2) == [page, zero];
    assert RecordOf(dot) == dot && RecordOf(dots) == dots && RecordOf(file) == file && RecordOf(page) == page;
  }

  lemma ShortKeys()
    ensures Key([46]) == [46] && Key([102]) == [102] && Key([120]) == [120] && Key([46, 46]) == [46, 46]
  {
    assert forall c: byte :: [c][..1] == [c] && [c][1..] == [];
    assert [46 as byte, 46][1..] == [46];
  }
}
