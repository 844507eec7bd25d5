/** Path resolution as a recursion over directories. */
module Resolution {
  import opened Arithmetic
  import opened Bytes
  import opened Chains
  import opened Dirents
  import opened Directory
  import opened Paths

  /** Cluster `c` starts a chain. */
  ghost predicate Heads(fs: Fs, c: nat, cs: seq<nat>) {
    IsDir(fs, cs) && cs[0] == c
  }

  ghost predicate HasChain(fs: Fs, c: nat) {
    exists cs :: Heads(fs, c, cs)
  }

  ghost function ChainOf(fs: Fs, c: nat): (cs: seq<nat>)
    requires HasChain(fs, c)
    ensures Heads(fs, c, cs)
  {
    var cs :| Heads(fs, c, cs); cs
  }

  lemma ChainOfIs(fs: Fs, c: nat, cs: seq<nat>)
    requires Heads(fs, c, cs)
    ensures HasChain(fs, c) && ChainOf(fs, c) == cs
  {
    ChainUnique(fs.fat, fs.n, ChainOf(fs, c), cs);
  }

  ghost function SlotsFrom(fs: Fs, c: nat): (rs: seq<Dirent>)
    requires HasChain(fs, c)
    ensures rs != [] && |rs| == Times(|ChainOf(fs, c)|, fs.ppc)
  {
    var cs := ChainOf(fs, c);
    ItemFits(0, |cs|, fs.ppc);
    Slots(fs, cs)
  }

  /** The slot at which one component is found in the directory that starts with cluster `c`, or none. */
  ghost function Lookup(fs: Fs, c: nat, nRecords: nat, name: Name): (j: nat)
    requires HasChain(fs, c)
    ensures j <= |SlotsFrom(fs, c)|
  {
    var rs := SlotsFrom(fs, c);
    var m := Bound(rs, nRecords);
    var j := FindName(rs, m, name);
    if j < m then j else |rs|
  }

  /**
   * Found: the last component is slot `j` of the directory that starts with cluster `dir`.
   * Hollow: slot `j` is a record without clusters, and components are left over below it.
   * Broken: a record on the way names a cluster at which no chain starts.
   */
  datatype Outcome = Found(dir: nat, j: nat) | Missing | Hollow(dir: nat, j: nat) | Broken

  ghost function Resolve(fs: Fs, names: seq<Name>, c: nat, nRecords: nat): (o: Outcome)
    requires names != []
    ensures o.Found? || o.Hollow? ==> HasChain(fs, o.dir) && o.j < |SlotsFrom(fs, o.dir)|
    decreases |names|
  {
    if !HasChain(fs, c) then Broken else
    var j := Lookup(fs, c, nRecords, names[0]);
    if j == |SlotsFrom(fs, c)| then Missing
    else if |names| == 1 then Found(c, j)
    else
      var d := SlotsFrom(fs, c)[j];
      if FirstCluster(d) == END then Hollow(c, j) else Resolve(fs, names[1..], FirstCluster(d), Length(d))
  }

  /** Every path starts at the root directory, whose length is that of its first record. */
  ghost function FromRoot(fs: Fs, names: seq<Name>): Outcome
    requires names != []
  {
    Resolve(fs, names, 0, 0)
  }

  ghost function RecordAt(fs: Fs, o: Outcome): Dirent
    requires o.Found? || o.Hollow?
    requires HasChain(fs, o.dir) && o.j < |SlotsFrom(fs, o.dir)|
  {
    SlotsFrom(fs, o.dir)[o.j]
  }

  /** In the root's first cluster there are only records that lead back to the root, such as "." and "..". */
  ghost predicate RootSelf(fs: Fs) {
    && FsOk(fs) && 0 < fs.n
    && forall k :: 0 <= k < fs.ppc ==> Exists(RecordOf(ClusterPages(fs, 0)[k])) ==> FirstCluster(RecordOf(ClusterPages(fs, 0)[k])) == 0
  }

  /** A record below which there are others: a directory that has clusters. */
  predicate Descends(d: Dirent) {
    IsDirectory(d) && FirstCluster(d) != END
  }

  predicate Empty(d: Dirent) {
    FirstCluster(d) == END
  }

  predicate NotEntered(d: Dirent) {
    !Descends(d)
  }

  /** A textbook lookup: nothing is found below a plain file, nor below a directory without clusters. */
  ghost function Reference(fs: Fs, names: seq<Name>, c: nat, nRecords: nat): Outcome
    requires names != []
    decreases |names|
  {
    if !HasChain(fs, c) then Broken
    else
      var j := Lookup(fs, c, nRecords, names[0]);
      if j == |SlotsFrom(fs, c)| then Missing
      else if |names| == 1 then Found(c, j)
      else
        var d := SlotsFrom(fs, c)[j];
        if !Descends(d) then Missing else Reference(fs, names[1..], FirstCluster(d), Length(d))
  }

  /** Some proper prefix of the path names a record of the given kind. */
  ghost predicate LeadsThrough(fs: Fs, names: seq<Name>, c: nat, nRecords: nat, kind: Dirent -> bool)
    requires names != []
  {
    exists i :: 0 < i < |names| && NamesKind(fs, names[..i], c, nRecords, kind)
  }

  ghost predicate NamesKind(fs: Fs, names: seq<Name>, c: nat, nRecords: nat, kind: Dirent -> bool)
    requires names != []
  {
    var o := Resolve(fs, names, c, nRecords);
    o.Found? && kind(RecordAt(fs, o))
  }

  /** Without anything found for the first component no prefix names anything. */
  lemma LeadsNowhere(fs: Fs, names: seq<Name>, c: nat, nRecords: nat, kind: Dirent -> bool)
    requires names != [] && (!HasChain(fs, c) || Lookup(fs, c, nRecords, names[0]) == |SlotsFrom(fs, c)|)
    ensures !LeadsThrough(fs, names, c, nRecords, kind)
  {
    forall i | 0 < i < |names|
      ensures !NamesKind(fs, names[..i], c, nRecords, kind)
    {
      assert names[..i][0] == names[0];
    }
  }

  /** The first component leads there itself, or the rest of the path does. */
  lemma LeadsNext(fs: Fs, names: seq<Name>, c: nat, nRecords: nat, j: nat, kind: Dirent -> bool)
    requires |names| > 1 && HasChain(fs, c) && j == Lookup(fs, c, nRecords, names[0]) < |SlotsFrom(fs, c)|
    requires kind(SlotsFrom(fs, c)[j]) || FirstCluster(SlotsFrom(fs, c)[j]) != END
    ensures var d := SlotsFrom(fs, c)[j];
            LeadsThrough(fs, names, c, nRecords, kind) <==>
              kind(d) || LeadsThrough(fs, names[1..], FirstCluster(d), Length(d), kind)
  {
    hide Lookup, SlotsFrom;
    var d := SlotsFrom(fs, c)[j];
    assert names[..1][0] == names[0];
    if kind(d) {
      assert NamesKind(fs, names[..1], c, nRecords, kind);
    } else {
      forall i | 1 < i < |names|
        ensures NamesKind(fs, names[..i], c, nRecords, kind) <==> NamesKind(fs, names[1..][..i - 1], FirstCluster(d), Length(d), kind)
      {
        assert names[..i][0] == names[0] && names[..i][1..] == names[1..][..i - 1];
      }
      assert !NamesKind(fs, names[..1], c, nRecords, kind);
      if LeadsThrough(fs, names, c, nRecords, kind) {
        var i :| 0 < i < |names| && NamesKind(fs, names[..i], c, nRecords, kind);
        assert NamesKind(fs, names[1..][..i - 1], FirstCluster(d), Length(d), kind);
      }
      if LeadsThrough(fs, names[1..], FirstCluster(d), Length(d), kind) {
        var i :| 0 < i < |names[1..]| && NamesKind(fs, names[1..][..i], FirstCluster(d), Length(d), kind);
        assert names[1..][..i] == names[1..][..i + 1 - 1];
        assert NamesKind(fs, names[..i + 1], c, nRecords, kind);
      }
    }
  }

  /** The walk stops in front of the path's end, and says found, exactly below a record without clusters. */
  lemma {:induction false} HollowExactlyThroughEmpty(fs: Fs, names: seq<Name>, c: nat, nRecords: nat)
    requires names != []
    ensures Resolve(fs, names, c, nRecords).Hollow? ==> LeadsThrough(fs, names, c, nRecords, Empty)
    ensures LeadsThrough(fs, names, c, nRecords, Empty) ==> Resolve(fs, names, c, nRecords).Hollow?
    decreases |names|
  {
    hide LeadsThrough;
    if !HasChain(fs, c) || Lookup(fs, c, nRecords, names[0]) == |SlotsFrom(fs, c)| {
      LeadsNowhere(fs, names, c, nRecords, Empty);
    } else if |names| > 1 {
      var j := Lookup(fs, c, nRecords, names[0]);
      var d := SlotsFrom(fs, c)[j];
      LeadsNext(fs, names, c, nRecords, j, Empty);
      if !Empty(d) {
        HollowExactlyThroughEmpty(fs, names[1..], FirstCluster(d), Length(d));
      }
    } else {
      ShortLeadsNowhere(fs, names, c, nRecords, Empty);
    }
  }

  lemma ShortLeadsNowhere(fs: Fs, names: seq<Name>, c: nat, nRecords: nat, kind: Dirent -> bool)
    requires |names| == 1
    ensures !LeadsThrough(fs, names, c, nRecords, kind)
  {
  }

  /** Below a record that is no directory with clusters the textbook lookup finds nothing; elsewhere the walk agrees with it. */
  lemma {:induction false} ReferenceFollowsWalk(fs: Fs, names: seq<Name>, c: nat, nRecords: nat)
    requires names != []
    ensures if LeadsThrough(fs, names, c, nRecords, NotEntered) then Reference(fs, names, c, nRecords) == Missing
            else Reference(fs, names, c, nRecords) == Resolve(fs, names, c, nRecords)
    decreases |names|
  {
    hide LeadsThrough;
    if !HasChain(fs, c) || Lookup(fs, c, nRecords, names[0]) == |SlotsFrom(fs, c)| {
      LeadsNowhere(fs, names, c, nRecords, NotEntered);
    } else if |names| > 1 {
      var j := Lookup(fs, c, nRecords, names[0]);
      var d := SlotsFrom(fs, c)[j];
      LeadsNext(fs, names, c, nRecords, j, NotEntered);
      if Descends(d) {
        ReferenceFollowsWalk(fs, names[1..], FirstCluster(d), Length(d));
      }
    } else {
      ShortLeadsNowhere(fs, names, c, nRecords, NotEntered);
    }
  }
}
