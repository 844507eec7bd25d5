/** The records of every directory after one is added, and that the card is well-formed again. */
module Growth {
  import opened Arithmetic
  import opened Bytes
  import opened Chains
  import opened Dirents
  import opened Directory
  import opened DirectoryScan
  import opened RecordUpdate
  import opened Resolution
  import opened SlotEdits
  import opened DirectoryTree
  import opened Placement

  /** A record that can be added: it exists, and names a file or nothing. */
  ghost predicate Addable(t: Tree, d: Dirent) {
    Exists(d) && (FirstCluster(d) == END || FirstCluster(d) in t.files)
  }

  ghost predicate Sound(fs: Fs, t: Tree) {
    FsOk(fs) && ChainsOk(fs, t) && LengthsOk(fs, t)
  }

  /** The records of directory `x` after `d` has replaced record `j` of directory `e`. */
  ghost function Replaced(fs: Fs, t: Tree, e: nat, j: nat, d: Dirent, x: nat): seq<Dirent>
    requires Sound(fs, t) && x in t.dirs && e in t.dirs && j < t.dirs[e].length
  {
    if x == e then Entries(fs, t, e)[j := d] else Entries(fs, t, x)
  }

  /** The records of directory `x` after `d` has been appended to directory `e` and the length of `e` counted up at its home. */
  ghost function Extended(fs: Fs, t: Tree, e: nat, d: Dirent, x: nat): seq<Dirent>
    requires Sound(fs, t) && x in t.dirs && e in t.dirs
    requires t.dirs[e].homeDir in t.dirs && t.dirs[e].homeSlot < t.dirs[t.dirs[e].homeDir].length
    requires t.dirs[e].length + 1 < U32_RANGE
  {
    var rs := if x == e then Entries(fs, t, x) + [d] else Entries(fs, t, x);
    if x == t.dirs[e].homeDir then rs[t.dirs[e].homeSlot := WithLength(rs[t.dirs[e].homeSlot], t.dirs[e].length + 1)] else rs
  }

  ghost predicate Replacing(fs: Fs, t: Tree, fs': Fs, e: nat, j: nat, d: Dirent) {
    && WellFormed(fs, t) && e in t.dirs && j < t.dirs[e].length && !Exists(Entries(fs, t, e)[j]) && Addable(t, d)
    && fs'.ppc == fs.ppc && Sound(fs', t)
    && forall x {:trigger Entries(fs', t, x)} :: x in t.dirs ==> Entries(fs', t, x) == Replaced(fs, t, e, j, d, x)
  }

  lemma ReplacedHome(fs: Fs, t: Tree, fs': Fs, e: nat, j: nat, d: Dirent, x: nat)
    requires Replacing(fs, t, fs', e, j, d) && x in t.dirs
    ensures HomeOk(fs', t, x) && FirstOk(fs', t, x)
  {
    hide Entries, ChainsOk, FsOk, LengthsOk, Exists, FirstCluster, Length, NameField, Mode, WithLength;
    assert HomeOk(fs, t, x) && FirstOk(fs, t, x);
  }

  lemma ReplacedRecords(fs: Fs, t: Tree, fs': Fs, e: nat, j: nat, d: Dirent)
    requires Replacing(fs, t, fs', e, j, d)
    ensures RecordsOk(fs', t)
  {
    hide Entries, ChainsOk, FsOk, LengthsOk, Exists, FirstCluster, Length, NameField, Mode, WithLength;
    forall x, y | x in t.dirs && 0 <= y < t.dirs[x].length && Exists(Entries(fs', t, x)[y])
      ensures RecordOk(t, x, y, Entries(fs', t, x)[y])
    {
      if !(x == e && y == j) {
        assert Entries(fs', t, x)[y] == Entries(fs, t, x)[y];
      }
    }
  }

  lemma ReplacedRoot(fs: Fs, t: Tree, fs': Fs, e: nat, j: nat, d: Dirent, k: nat)
    requires Replacing(fs, t, fs', e, j, d) && k < fs.ppc
    ensures Exists(Entries(fs', t, 0)[k]) && FirstCluster(Entries(fs', t, 0)[k]) == 0
  {
    hide Entries, ChainsOk, FsOk, LengthsOk, Exists, FirstCluster, Length, NameField, Mode, WithLength;
    assert Exists(Entries(fs, t, 0)[k]);
    assert Entries(fs', t, 0) == Replaced(fs, t, e, j, d, 0);
  }

  /** Putting a record in the place of a deleted one keeps the card well-formed. */
  lemma ReplaceWellFormed(fs: Fs, t: Tree, fs': Fs, e: nat, j: nat, d: Dirent)
    requires Replacing(fs, t, fs', e, j, d)
    ensures WellFormed(fs', t)
  {
    hide Entries, ChainsOk, FsOk, LengthsOk, Exists, FirstCluster, Length, NameField, Mode, WithLength, RecordsOk, HomeOk, FirstOk;
    ReplacedRecords(fs, t, fs', e, j, d);
    forall x | x in t.dirs
      ensures HomeOk(fs', t, x) && FirstOk(fs', t, x)
    {
      ReplacedHome(fs, t, fs', e, j, d, x);
    }
    forall k | 0 <= k < fs.ppc
      ensures Exists(Entries(fs', t, 0)[k]) && FirstCluster(Entries(fs', t, 0)[k]) == 0
    {
      ReplacedRoot(fs, t, fs', e, j, d, k);
    }
  }

  lemma HasFirst(fs: Fs, t: Tree, e: nat)
    requires Sound(fs, t) && e in t.dirs
    ensures 0 < t.dirs[e].length
  {
    assert Fits(t.dirs[e], fs.ppc);
  }

  ghost predicate Extending(fs: Fs, t: Tree, fs': Fs, t': Tree, e: nat, d: Dirent, more: seq<nat>) {
    && WellFormed(fs, t) && e in t.dirs && Addable(t, d) && t.dirs[e].length + 1 < U32_RANGE
    && HomeOk(fs, t, e)
    && t' == Grown(t, e, more) && fs'.ppc == fs.ppc && Sound(fs', t')
    && forall x {:trigger Entries(fs', t', x)} :: x in t.dirs ==> Entries(fs', t', x) == Extended(fs, t, e, d, x)
  }

  lemma ExtendedRecords(fs: Fs, t: Tree, fs': Fs, t': Tree, e: nat, d: Dirent, more: seq<nat>)
    requires Extending(fs, t, fs', t', e, d, more)
    ensures RecordsOk(fs', t')
  {
    hide Entries, ChainsOk, FsOk, LengthsOk, Exists, FirstCluster, Length, NameField, Mode, WithLength;
    forall x, j | x in t'.dirs && 0 <= j < t'.dirs[x].length && Exists(Entries(fs', t', x)[j])
      ensures RecordOk(t', x, j, Entries(fs', t', x)[j])
    {
      if !(x == e && j == t.dirs[e].length) {
        assert Exists(Entries(fs, t, x)[j]);
        assert RecordOk(t, x, j, Entries(fs, t, x)[j]);
      }
    }
  }

  lemma ExtendedHome(fs: Fs, t: Tree, fs': Fs, t': Tree, e: nat, d: Dirent, more: seq<nat>, x: nat)
    requires Extending(fs, t, fs', t', e, d, more) && x in t.dirs
    ensures HomeOk(fs', t', x)
  {
    hide Entries, ChainsOk, FsOk, LengthsOk, Exists, FirstCluster, Length, NameField, Mode, WithLength;
    assert HomeOk(fs, t, x);
  }

  lemma ExtendedFirst(fs: Fs, t: Tree, fs': Fs, t': Tree, e: nat, d: Dirent, more: seq<nat>, x: nat)
    requires Extending(fs, t, fs', t', e, d, more) && x in t.dirs
    ensures FirstOk(fs', t', x)
  {
    hide Entries, ChainsOk, FsOk, LengthsOk, Exists, FirstCluster, Length, NameField, Mode, WithLength;
    HasFirst(fs, t, x);
    HasFirst(fs, t, e);
    assert FirstOk(fs, t, x) && HomeOk(fs, t, e) && HomeOk(fs, t, x);
    assert Entries(fs', t', x) == Extended(fs, t, e, d, x);
  }

  /** Appending a record and counting it at the directory's home keeps the card well-formed. */
  lemma ExtendWellFormed(fs: Fs, t: Tree, fs': Fs, t': Tree, e: nat, d: Dirent, more: seq<nat>)
    requires Extending(fs, t, fs', t', e, d, more)
    ensures WellFormed(fs', t')
  {
    hide Entries, ChainsOk, FsOk, LengthsOk, Exists, FirstCluster, Length, NameField, Mode, WithLength, RecordsOk, HomeOk, FirstOk;
    ExtendedRecords(fs, t, fs', t', e, d, more);
    forall x | x in t'.dirs
      ensures HomeOk(fs', t', x) && FirstOk(fs', t', x)
    {
      ExtendedHome(fs, t, fs', t', e, d, more, x);
      ExtendedFirst(fs, t, fs', t', e, d, more, x);
    }
  }
}
