/** How many free clusters a run of new records takes (mctools.c, CreateNewVirtualDirent). */
module Demand {
  import opened Arithmetic
  import opened Bytes
  import opened Chains
  import opened Dirents
  import opened Directory
  import opened Resolution
  import opened DirectoryTree
  import opened Placement
  import opened Growth
  import opened Creation

  /** How many of the records are deleted. */
  function Vacant(rs: seq<Dirent>): nat {
    if rs == [] then 0 else Vacant(rs[..|rs| - 1]) + if Exists(rs[|rs| - 1]) then 0 else 1
  }

  lemma {:induction false} NoneVacant(rs: seq<Dirent>)
    ensures Vacant(rs) == 0 <==> forall k :: 0 <= k < |rs| ==> Exists(rs[k])
  {
    if rs != [] {
      var init := rs[..|rs| - 1];
      NoneVacant(init);
      if Vacant(rs) == 0 {
        forall k | 0 <= k < |rs|
          ensures Exists(rs[k])
        {
          assert k < |init| ==> rs[k] == init[k];
        }
      }
    }
  }

  lemma {:induction false} VacantSet(rs: seq<Dirent>, j: nat, d: Dirent)
    requires j < |rs|
    ensures Vacant(rs[j := d]) + (if Exists(rs[j]) then 0 else 1) == Vacant(rs) + (if Exists(d) then 0 else 1)
  {
    var init := rs[..|rs| - 1];
    if j < |init| {
      VacantSet(init, j, d);
      assert rs[j := d][..|rs| - 1] == init[j := d];
    } else {
      assert rs[j := d][..|rs| - 1] == init;
    }
  }

  lemma VacantMore(rs: seq<Dirent>, d: Dirent)
    ensures Vacant(rs + [d]) == Vacant(rs) + if Exists(d) then 0 else 1
  {
    assert (rs + [d])[..|rs|] == rs;
  }

  /** How many records directory `e` takes without another cluster. */
  ghost function RoomIn(fs: Fs, t: Tree, e: nat): nat
    requires WellFormed(fs, t) && e in t.dirs
  {
    assert Fits(t.dirs[e], fs.ppc);
    Vacant(Entries(fs, t, e)) + Times(|t.dirs[e].clusters|, fs.ppc) - t.dirs[e].length
  }

  ghost function Rooms(fs: Fs, t: Tree): (rooms: map<nat, nat>)
    requires WellFormed(fs, t)
    ensures rooms.Keys == t.dirs.Keys
  {
    map e | e in t.dirs :: RoomIn(fs, t, e)
  }

  /** The room after one record more in directory `e`, which with no room left brings a cluster. */
  function Taken(rooms: map<nat, nat>, e: nat, ppc: nat): map<nat, nat>
    requires e in rooms && 0 < ppc
  {
    rooms[e := (if rooms[e] == 0 then ppc else rooms[e]) - 1]
  }

  /** How many clusters it takes to add records to the directories `es[i..n]`, in this order. */
  function Needed(rooms: map<nat, nat>, es: seq<nat>, i: nat, n: nat, ppc: nat): nat
    requires n <= |es| && 0 < ppc
    decreases n - i
  {
    if i < n && es[i] in rooms then (if rooms[es[i]] == 0 then 1 else 0) + Needed(Taken(rooms, es[i], ppc), es, i + 1, n, ppc) else 0
  }

  /** There is a place for a record exactly if there is room. */
  lemma NoPlaceExactlyWithoutRoom(fs: Fs, t: Tree, e: nat)
    requires WellFormed(fs, t) && e in t.dirs
    ensures PlaceIn(fs, t, e).NoPlace? <==> RoomIn(fs, t, e) == 0
  {
    hide ChainsOk, LengthsOk, RecordsOk, HomeOk, FirstOk, Entries, PlaceIn, DirSlots, Exists, Vacant;
    PlaceIs(fs, t, e);
    NoneVacant(Entries(fs, t, e));
    SlotCount(fs, t, e);
  }

  lemma SlotCount(fs: Fs, t: Tree, e: nat)
    requires WellFormed(fs, t) && e in t.dirs
    ensures t.dirs[e].length <= |DirSlots(fs, t, e)| == Times(|t.dirs[e].clusters|, fs.ppc)
  {
    assert Fits(t.dirs[e], fs.ppc);
    assert Heads(fs, e, t.dirs[e].clusters);
  }

  lemma ReplacedRoom(fs: Fs, t: Tree, fs': Fs, e: nat, j: nat, d: Dirent, x: nat)
    requires Replacing(fs, t, fs', e, j, d) && WellFormed(fs', t) && x in t.dirs
    ensures RoomIn(fs', t, x) == RoomIn(fs, t, x) - if x == e then 1 else 0
  {
    hide ChainsOk, LengthsOk, RecordsOk, HomeOk, FirstOk, Entries, Exists;
    assert Entries(fs', t, x) == Replaced(fs, t, e, j, d, x);
    VacantSet(Entries(fs, t, e), j, d);
  }

  lemma ExtendedVacant(fs: Fs, t: Tree, fs': Fs, t': Tree, e: nat, d: Dirent, more: seq<nat>, x: nat)
    requires Extending(fs, t, fs', t', e, d, more) && x in t.dirs
    ensures t' == Grown(t, e, more) && fs'.ppc == fs.ppc && Vacant(Entries(fs', t', x)) == Vacant(Entries(fs, t, x))
  {
    hide ChainsOk, LengthsOk, RecordsOk, FirstOk, Entries, Exists, WithLength, Vacant;
    assert Entries(fs', t', x) == Extended(fs, t, e, d, x);
    VacantMore(Entries(fs, t, e), d);
    var rs := if x == e then Entries(fs, t, x) + [d] else Entries(fs, t, x);
    if x == t.dirs[e].homeDir {
      VacantSet(rs, t.dirs[e].homeSlot, WithLength(rs[t.dirs[e].homeSlot], t.dirs[e].length + 1));
    }
  }

  lemma ExtendedRoom(fs: Fs, t: Tree, fs': Fs, t': Tree, e: nat, d: Dirent, more: seq<nat>, x: nat)
    requires Extending(fs, t, fs', t', e, d, more) && WellFormed(fs', t') && x in t.dirs
    ensures RoomIn(fs', t', x) == RoomIn(fs, t, x) + if x == e then Times(|more|, fs.ppc) - 1 else 0
  {
    hide ChainsOk, RecordsOk, HomeOk, FirstOk, Entries, Vacant, Exists, Extending, LengthsOk, FsOk;
    ExtendedVacant(fs, t, fs', t', e, d, more, x);
    Distribute(|t.dirs[x].clusters|, |more|, fs.ppc);
  }

  /** Adding a record takes the room that it should. */
  lemma CreatedRooms(fs: Fs, t: Tree, fs': Fs, t': Tree, e: nat, d: Dirent)
    requires Created(fs, t, fs', t', e, d)
    ensures Rooms(fs', t') == Taken(Rooms(fs, t), e, fs.ppc) && fs'.ppc == fs.ppc
  {
    hide ChainsOk, LengthsOk, RecordsOk, HomeOk, FirstOk, PlaceIn, RoomIn, Pages, Entries;
    NoPlaceExactlyWithoutRoom(fs, t, e);
    forall x | x in t.dirs
      ensures x in t'.dirs && RoomIn(fs', t', x) == Taken(Rooms(fs, t), e, fs.ppc)[x]
    {
      match PlaceIn(fs, t, e)
      case Deleted(j) => ReplacedRoom(fs, t, fs', e, j, d, x);
      case Slack(_) => ExtendedRoom(fs, t, fs', t', e, d, [], x);
      case NoPlace => ExtendedRoom(fs, t, fs', t', e, d, [FirstFree(fs.fat)], x);
    }
  }

  function FreeSet(fat: seq<u32>): set<nat> {
    set i: nat | i < |fat| && Free(fat[i])
  }

  /** A record costs a free cluster exactly if its directory has no room. */
  lemma CreatedCost(fs: Fs, t: Tree, fs': Fs, t': Tree, e: nat, d: Dirent)
    requires Created(fs, t, fs', t', e, d)
    ensures |FreeSet(fs'.fat)| == |FreeSet(fs.fat)| - if Rooms(fs, t)[e] == 0 then 1 else 0
  {
    hide ChainsOk, LengthsOk, RecordsOk, HomeOk, FirstOk, Entries, Replacing, Extending, PlaceIn, Pages, RoomIn;
    NoPlaceExactlyWithoutRoom(fs, t, e);
    if PlaceIn(fs, t, e).NoPlace? {
      var c := FirstFree(fs.fat);
      LastIsTaken(fs, t, e);
      assert c in FreeSet(fs.fat);
      assert FreeSet(fs'.fat) == FreeSet(fs.fat) - {c};
    }
  }

  lemma LastIsTaken(fs: Fs, t: Tree, e: nat)
    requires WellFormed(fs, t) && e in t.dirs
    ensures LastOf(t, e) < |fs.fat| && !Free(fs.fat[LastOf(t, e)])
  {
    DirIsChain(fs, t, e);
  }

  /** There are as many free clusters as it takes to add records to the directories `es[i..n]`. */
  ghost predicate Enough(fs: Fs, t: Tree, es: seq<nat>, i: nat, n: nat)
  {
    WellFormed(fs, t) && n <= |es| && Needed(Rooms(fs, t), es, i, n, fs.ppc) <= |FreeSet(fs.fat)|
  }

  /** The clusters needed for the records from `i` on, and then from `i + 1` on. */
  lemma NeededNext(fs: Fs, t: Tree, fs': Fs, t': Tree, es: seq<nat>, i: nat, n: nat, d: Dirent)
    requires i < n <= |es| && Created(fs, t, fs', t', es[i], d)
    ensures Enough(fs, t, es, i, n) <==> Enough(fs', t', es, i + 1, n) && (PlaceIn(fs, t, es[i]).NoPlace? ==> 0 < |FreeSet(fs.fat)|)
  {
    hide WellFormed, Replacing, Extending, PlaceIn, Pages, RoomIn, FreeSet;
    NoPlaceExactlyWithoutRoom(fs, t, es[i]);
    CreatedRooms(fs, t, fs', t', es[i], d);
    CreatedCost(fs, t, fs', t', es[i], d);
  }

  /** A free cluster is left for record `i` if it needs one. */
  lemma NeededNow(fs: Fs, t: Tree, es: seq<nat>, i: nat, n: nat)
    requires Enough(fs, t, es, i, n) && i < n && es[i] in t.dirs
    ensures PlaceIn(fs, t, es[i]).NoPlace? ==> FirstFree(fs.fat) < |fs.fat|
  {
    hide WellFormed, PlaceIn, RoomIn;
    NoPlaceExactlyWithoutRoom(fs, t, es[i]);
    if PlaceIn(fs, t, es[i]).NoPlace? {
      var c :| c in FreeSet(fs.fat);
    }
  }

  /** A card on the way of a run of creations. */
  datatype Stage = Stage(fs: Fs, t: Tree)

  /** Record after record is created, in the directories `es` one after the other. */
  ghost predicate Creations(run: seq<Stage>, es: seq<nat>, ds: seq<Dirent>) {
    && 0 < |run| <= |es| + 1 && |run| <= |ds| + 1 && WellFormed(run[0].fs, run[0].t)
    && forall i {:trigger run[i + 1]} :: 0 <= i < |run| - 1 ==> Created(run[i].fs, run[i].t, run[i + 1].fs, run[i + 1].t, es[i], ds[i])
  }

  /** Creating a record in directory `e` would need a cluster, and every entry of the table is taken. */
  ghost predicate Full(fs: Fs, t: Tree, e: nat) {
    WellFormed(fs, t) && e in t.dirs && PlaceIn(fs, t, e).NoPlace? && FirstFree(fs.fat) == |fs.fat|
  }

  lemma NextCreation(run: seq<Stage>, es: seq<nat>, ds: seq<Dirent>, i: nat)
    requires Creations(run, es, ds) && i + 1 < |run|
    ensures Created(run[i].fs, run[i].t, run[i + 1].fs, run[i + 1].t, es[i], ds[i])
  {
  }

  lemma CreationsWellFormed(run: seq<Stage>, es: seq<nat>, ds: seq<Dirent>, i: nat)
    requires Creations(run, es, ds) && i < |run|
    ensures WellFormed(run[i].fs, run[i].t)
  {
    hide WellFormed, Replacing, Extending;
    if i > 0 {
      NextCreation(run, es, ds, i - 1);
    }
  }

  lemma FullHasNoneFree(fs: Fs, t: Tree, es: seq<nat>, i: nat, n: nat)
    requires i < n <= |es| && Full(fs, t, es[i])
    ensures !Enough(fs, t, es, i, n)
  {
    hide WellFormed, PlaceIn, RoomIn;
    NoPlaceExactlyWithoutRoom(fs, t, es[i]);
    assert FreeSet(fs.fat) == {};
  }

  /** From any stage on there is enough exactly if there is from the last one on. */
  lemma {:induction false} EnoughAtTheEnd(run: seq<Stage>, es: seq<nat>, ds: seq<Dirent>, i: nat, n: nat)
    requires Creations(run, es, ds) && i < |run| <= n + 1 <= |es| + 1
    ensures var last := run[|run| - 1];
            Enough(run[i].fs, run[i].t, es, i, n) <==> Enough(last.fs, last.t, es, |run| - 1, n)
    decreases |run| - i
  {
    hide WellFormed, Replacing, Extending, PlaceIn, FreeSet, Enough, Needed;
    if i < |run| - 1 {
      var now, next := run[i], run[i + 1];
      NextCreation(run, es, ds, i);
      NeededNext(now.fs, now.t, next.fs, next.t, es, i, n, ds[i]);
      CreatedHadFree(now.fs, now.t, next.fs, next.t, es[i], ds[i]);
      EnoughAtTheEnd(run, es, ds, i + 1, n);
    }
  }

  lemma CreatedHadFree(fs: Fs, t: Tree, fs': Fs, t': Tree, e: nat, d: Dirent)
    requires Created(fs, t, fs', t', e, d)
    ensures PlaceIn(fs, t, e).NoPlace? ==> 0 < |FreeSet(fs.fat)|
  {
    hide LengthsOk, RecordsOk, HomeOk, FirstOk, Replacing, Extending, PlaceIn;
    if PlaceIn(fs, t, e).NoPlace? {
      assert FirstFree(fs.fat) in FreeSet(fs.fat);
    }
  }

  /**
   * A run of creations that ends with the last of `n` records, or at a full table, creates all of them exactly if there are as
   * many free clusters as they need; with fewer, some creation reaches the full table.
   */
  lemma AllCreatedExactlyIfEnough(run: seq<Stage>, es: seq<nat>, ds: seq<Dirent>, n: nat)
    requires Creations(run, es, ds) && |run| <= n + 1 <= |es| + 1
    requires |run| <= n ==> Full(run[|run| - 1].fs, run[|run| - 1].t, es[|run| - 1])
    ensures |run| == n + 1 <==> Enough(run[0].fs, run[0].t, es, 0, n)
  {
    hide WellFormed, Full, Created, FreeSet;
    var last := run[|run| - 1];
    EnoughAtTheEnd(run, es, ds, 0, n);
    CreationsWellFormed(run, es, ds, |run| - 1);
    if |run| <= n {
      FullHasNoneFree(last.fs, last.t, es, |run| - 1, n);
    } else {
      NothingNeeded(last.fs, last.t, es, n);
    }
  }

  lemma NothingNeeded(fs: Fs, t: Tree, es: seq<nat>, n: nat)
    requires WellFormed(fs, t) && n <= |es|
    ensures Enough(fs, t, es, n, n)
  {
    hide ChainsOk, LengthsOk, RecordsOk, HomeOk, FirstOk, Rooms, FreeSet;
  }
}
