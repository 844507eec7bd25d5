/** Directories as sequences of records along a cluster chain. */
module Directory {
  import opened Constants
  import opened Arithmetic
  import opened Bytes
  import opened BlockIO
  import opened PageCaching
  import opened FatTable
  import opened Chains
  import opened Dirents

  /** The card as the directory code sees it: the FAT array, and the pages of `n` data clusters of `ppc` pages each. */
  datatype Fs = Fs(fat: seq<u32>, data: seq<Page>, ppc: nat, n: nat)

  ghost predicate FsOk(fs: Fs) {
    && 0 < fs.ppc && fs.n <= |fs.fat| < 0x7FFF_FFFF
    && Times(fs.n, fs.ppc) <= |fs.data| && Times(fs.n, fs.ppc) + 1 < U32_RANGE
    && forall p :: 0 <= p < |fs.data| ==> DIRENT_SIZE <= |fs.data[p]|
  }

  ghost predicate IsDir(fs: Fs, cs: seq<nat>) {
    FsOk(fs) && IsChain(fs.fat, fs.n, cs)
  }

  ghost function ClusterPages(fs: Fs, c: nat): (ps: seq<Page>)
    requires FsOk(fs) && c < fs.n
    ensures |ps| == fs.ppc
    ensures forall k :: 0 <= k < fs.ppc ==> Times(c, fs.ppc) + k < |fs.data| && ps[k] == fs.data[Times(c, fs.ppc) + k] && DIRENT_SIZE <= |ps[k]|
  {
    ItemFits(c, fs.n, fs.ppc);
    Group(fs.data, fs.ppc, c)
  }

  /** All the pages of the clusters `cs`, in order. */
  ghost function Pages(fs: Fs, cs: seq<nat>): (ps: seq<Page>)
    requires FsOk(fs) && forall i :: 0 <= i < |cs| ==> cs[i] < fs.n
    ensures |ps| == Times(|cs|, fs.ppc)
    ensures forall j :: 0 <= j < |ps| ==> DIRENT_SIZE <= |ps[j]|
  {
    if cs == [] then [] else
    var last := |cs| - 1;
    assert Times(|cs|, fs.ppc) == Times(last, fs.ppc) + fs.ppc;
    Pages(fs, cs[..last]) + ClusterPages(fs, cs[last])
  }

  /** Page `k` of the `i`-th cluster is page `i * ppc + k` of the whole. */
  lemma {:induction false} PagesAt(fs: Fs, cs: seq<nat>, i: nat, k: nat)
    requires FsOk(fs) && (forall i :: 0 <= i < |cs| ==> cs[i] < fs.n)
    requires i < |cs| && k < fs.ppc
    ensures Times(i, fs.ppc) + k < |Pages(fs, cs)|
    ensures Pages(fs, cs)[Times(i, fs.ppc) + k] == ClusterPages(fs, cs[i])[k]
  {
    var last, at := |cs| - 1, Times(i, fs.ppc) + k;
    var front := Pages(fs, cs[..last]);
    assert Pages(fs, cs) == front + ClusterPages(fs, cs[last]);
    if i < last {
      PagesAt(fs, cs[..last], i, k);
      assert at < |front|;
    } else {
      assert |front| == Times(i, fs.ppc);
    }
  }

  /** The slots of a directory: its own records first, then whatever is left in its last cluster. */
  ghost function Slots(fs: Fs, cs: seq<nat>): (rs: seq<Dirent>)
    requires FsOk(fs) && forall i :: 0 <= i < |cs| ==> cs[i] < fs.n
    ensures |rs| == Times(|cs|, fs.ppc)
    ensures forall j :: 0 <= j < |rs| ==> rs[j] == RecordOf(Pages(fs, cs)[j])
  {
    var ps := Pages(fs, cs);
    seq(|ps|, j requires 0 <= j < |ps| => RecordOf(ps[j]))
  }

  /** The first existing record with the given name among the first `m`, or `m`. */
  function FindName(rs: seq<Dirent>, m: nat, name: seq<byte>): (j: nat)
    requires m <= |rs|
    ensures j <= m && (j < m ==> Exists(rs[j]) && Matches(name, rs[j]))
    ensures forall k :: 0 <= k < j ==> !(Exists(rs[k]) && Matches(name, rs[k]))
    decreases m
  {
    if m == 0 then 0 else
    var j := FindName(rs, m - 1, name);
    if j < m - 1 then j else if Exists(rs[m - 1]) && Matches(name, rs[m - 1]) then m - 1 else m
  }

  /** The first deleted record among the first `m`, or `m`. */
  function FindDeleted(rs: seq<Dirent>, m: nat): (j: nat)
    requires m <= |rs|
    ensures j <= m && (j < m ==> !Exists(rs[j]))
    ensures forall k :: 0 <= k < j ==> Exists(rs[k])
    decreases m
  {
    if m == 0 then 0 else
    var j := FindDeleted(rs, m - 1);
    if j < m - 1 then j else if !Exists(rs[m - 1]) then m - 1 else m
  }

  /** How many records a scan looks at: the length it was given, or that of the first record, but never past the chain. */
  function Bound(rs: seq<Dirent>, nRecords: nat): (m: nat)
    requires rs != []
    ensures m <= |rs|
  {
    var n := if nRecords < 1 then Length(rs[0]) else nRecords;
    if n < |rs| then n else |rs|
  }

  const DELETED_SLOT := 2
  const SLACK_SLOT := 1

  /** Where a new record goes: the first deleted record, else the slack of the last cluster, else nowhere yet. */
  datatype Place = Deleted(j: nat) | Slack(j: nat) | NoPlace

  function FindPlace(rs: seq<Dirent>, ppc: nat, nRecords: nat): (p: Place)
    requires rs != [] && 0 < ppc
    ensures !p.NoPlace? ==> p.j < |rs|
  {
    var m := Bound(rs, nRecords);
    var d := FindDeleted(rs, m);
    if d < m then Deleted(d) else if m < |rs| && Rem(m, ppc) != 0 then Slack(m) else NoPlace
  }

  /** The view of a mounted card. */
  ghost function View(store: seq<Page>, sb: Superblock): (fs: Fs)
    requires Layout(store, sb)
  {
    Fs(Fat(store, sb), Data(store, sb), sb.pagesPerCluster, sb.clusters - sb.allocStart)
  }

  ghost predicate Readable(cache: PageCache, sb: Superblock)
    reads cache, cache.card, cache.slots
  {
    Mounted(cache, sb) && DIRENT_SIZE <= sb.pageLen
  }

  lemma ViewOk(store: seq<Page>, sb: Superblock)
    requires Layout(store, sb) && DIRENT_SIZE <= sb.pageLen
    ensures FsOk(View(store, sb))
  {
    Distribute(sb.clusters - sb.allocStart, sb.allocStart, sb.pagesPerCluster);
    ItemFits(0, sb.allocStart, sb.pagesPerCluster);
  }

  /** GetFatTableNextIndexData */
  method GetFatTableNextIndexData(cache: PageCache, sb: Superblock, index: nat) returns (result: int, next: u32)
    requires Mounted(cache, sb)
    modifies cache, cache.slots, cache.card
    ensures Mounted(cache, sb) && cache.store == old(cache.store)
    ensures result == if index < sb.clusters then 0 else -EINVAL
    ensures index < sb.clusters ==> next == Masked(Fat(cache.store, sb)[index])
    ensures index < sb.clusters ==>
              var entry := Fat(cache.store, sb)[index];
              next == if entry == 0xFFFF_FFFF then 0xFFFF_FFFF else entry % 0x8000_0000
  {
    result, next := GetFatTableIndexData(cache, sb, index);
    if result >= 0 && next != END {
      next := next % ALLOCATED;
    }
  }
}
