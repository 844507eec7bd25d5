/** Where the keys of a KELF header lie, and storing them there (keyman.c, libsecr.c and system.c). */
module KelfKeys {
  import opened Wrappers
  import opened Arithmetic
  import opened Bytes

  const HEADER := 0x20

  /** The offsets of the header's 16-bit fields, which the SDK's SecrKELFHeader_t fixes; all lie in the first 32 bytes. */
  datatype Layout = Layout(flagsAt: nat, countAt: nat, sizeAt: nat) {
    predicate Valid() {
      && flagsAt + 2 <= HEADER && countAt + 2 <= HEADER && sizeAt + 2 <= HEADER
      && Beside(flagsAt, countAt) && Beside(flagsAt, sizeAt) && Beside(countAt, sizeAt)
    }
  }

  predicate Beside(a: nat, b: nat) {
    a + 2 <= b || b + 2 <= a
  }

  datatype Key = Kbit | Kc | Icvps2

  function KeyLength(k: Key): nat {
    if k == Icvps2 then 8 else 16
  }

  /** Behind the entries of the bit table. */
  function TableEnd(b: seq<byte>, l: Layout): nat
    requires l.Valid() && HEADER <= |b|
  {
    HEADER + 16 * U16(b, l.countAt)
  }

  /** Kbit comes behind an optional counted string and eight optional bytes; Kc follows it; ICVPS2 ends the header. */
  function Place(b: seq<byte>, l: Layout, k: Key): int
    requires l.Valid() && HEADER <= |b| && TableEnd(b, l) < |b|
  {
    var flags, table := U16(b, l.flagsAt), TableEnd(b, l);
    var length: int := b[table];
    var name := if flags % 2 == 1 then length + 1 else 0;
    var kbit := table + name + if flags / 0x1000 == 0 then 8 else 0;
    match k
    case Kbit => kbit
    case Kc => kbit + 16
    case Icvps2 => U16(b, l.sizeAt) - 8
  }

  /** What lies in front of the keys: the header proper, the bit table's entries, the optional string, eight optional bytes. */
  datatype Parts = Parts(fixed: seq<byte>, entries: seq<seq<byte>>, name: Option<seq<byte>>, extra: Option<seq<byte>>) {
    ghost predicate Fit(l: Layout) {
      && l.Valid() && |fixed| == HEADER && AllLen(entries, 16)
      && fixed[l.countAt] + 0x100 * fixed[l.countAt + 1] as int == |entries|
      && (fixed[l.flagsAt] % 2 == 1 <==> name.Some?) && (name.Some? ==> |name.value| < 256)
      && (fixed[l.flagsAt + 1] < 0x10 <==> extra.Some?) && (extra.Some? ==> |extra.value| == 8)
    }

    function Written(): seq<byte>
      requires name.Some? ==> |name.value| < 256
    {
      fixed + Flat(entries) + (if name.Some? then [|name.value|] + name.value else []) + if extra.Some? then extra.value else []
    }
  }

  /**
   * In a header written part by part, of the length that it gives, the keys are found where they were written; it is bound to
   * a card by the second flag.
   */
  lemma KeysLieBehindParts(p: Parts, l: Layout, kbit: seq<byte>, kc: seq<byte>, table: seq<byte>, icvps2: seq<byte>, file: seq<byte>)
    requires p.Fit(l) && |kbit| == 16 && |kc| == 16 && |icvps2| == 8
    requires |p.Written() + kbit + kc + table + icvps2| == p.fixed[l.sizeAt] + 0x100 * p.fixed[l.sizeAt + 1] as int
    ensures var b := p.Written() + kbit + kc + table + icvps2 + file;
            && Room(b, l) && Place(b, l, Kbit) == |p.Written()|
            && Get(b, l, Kbit) == kbit && Get(b, l, Kc) == kc && Get(b, l, Icvps2) == icvps2
            && (UsesIcvps2(b, l) <==> p.fixed[l.flagsAt] / 2 % 2 == 1)
  {
    hide Flat, U16, Place, Parts.Written, TableEnd, Room, Get, UsesIcvps2;
    var front := p.Written();
    var b := front + kbit + kc + table + icvps2 + file;
    SixPieces(front, kbit, kc, table, icvps2, file);
    KbitLiesBehindParts(p, l, kbit + kc + table + icvps2 + file);
    Field(b, p.fixed, l.flagsAt);
    Field(b, p.fixed, l.sizeAt);
    OtherPlaces(b, l);
    KeysAt(b, l, |front|, kbit, kc, icvps2, |front| + 32 + |table| + 8);
  }

  lemma KeysAt(b: seq<byte>, l: Layout, at: nat, kbit: seq<byte>, kc: seq<byte>, icvps2: seq<byte>, size: nat)
    requires l.Valid() && HEADER <= |b| && TableEnd(b, l) < |b| && Place(b, l, Kbit) == at && U16(b, l.sizeAt) == size <= |b| && at + 40 <= size
    requires b[at..at + 16] == kbit && b[at + 16..at + 32] == kc && b[size - 8..size] == icvps2
    ensures Room(b, l) && Get(b, l, Kbit) == kbit && Get(b, l, Kc) == kc && Get(b, l, Icvps2) == icvps2
    ensures UsesIcvps2(b, l) <==> U16(b, l.flagsAt) / 2 % 2 == 1
  {
    hide U16, TableEnd;
    OtherPlaces(b, l);
  }

  lemma SixPieces(f: seq<byte>, x: seq<byte>, y: seq<byte>, t: seq<byte>, z: seq<byte>, e: seq<byte>)
    ensures var b := f + x + y + t + z + e;
            && b == f + (x + y + t + z + e)
            && b[|f|..|f| + |x|] == x && b[|f| + |x|..|f| + |x| + |y|] == y
            && b[|f| + |x| + |y| + |t|..|f| + |x| + |y| + |t| + |z|] == z
  {
  }

  lemma OtherPlaces(b: seq<byte>, l: Layout)
    requires l.Valid() && HEADER <= |b| && TableEnd(b, l) < |b|
    ensures Place(b, l, Kc) == Place(b, l, Kbit) + 16 && Place(b, l, Icvps2) == U16(b, l.sizeAt) - 8
  {
  }

  lemma KbitLiesBehindParts(p: Parts, l: Layout, rest: seq<byte>)
    requires p.Fit(l) && rest != []
    ensures var b := p.Written() + rest;
            HEADER <= |b| && b[..HEADER] == p.fixed && TableEnd(b, l) < |b| && Place(b, l, Kbit) == |p.Written()|
  {
    hide Flat, U16;
    var b := p.Written() + rest;
    FlatLen(p.entries, 16);
    TimesIsProduct(|p.entries|, 16);
    assert b[..HEADER] == p.fixed;
    Field(b, p.fixed, l.flagsAt);
    Field(b, p.fixed, l.countAt);
    if p.name.Some? {
      assert b[HEADER + |Flat(p.entries)|] == |p.name.value|;
    }
  }

  lemma Field(b: seq<byte>, fixed: seq<byte>, o: nat)
    requires |fixed| == HEADER <= |b| && b[..HEADER] == fixed && o + 2 <= HEADER
    ensures U16(b, o) == fixed[o] + 0x100 * fixed[o + 1] as int
  {
    assert b[o] == b[..HEADER][o] && b[o + 1] == b[..HEADER][o + 1];
  }

  lemma SameField(b: seq<byte>, fixed: seq<byte>, o: nat)
    requires |fixed| == HEADER <= |b| && b[..HEADER] == fixed && o + 2 <= HEADER
    ensures U16(b, o) == U16(fixed, o)
  {
    assert b[o] == b[..HEADER][o] && b[o + 1] == b[..HEADER][o + 1];
  }

  /** The header has room for all three, and for them only once. */
  ghost predicate Room(b: seq<byte>, l: Layout) {
    && l.Valid() && HEADER <= |b| && TableEnd(b, l) < |b|
    && Place(b, l, Kc) + 16 <= Place(b, l, Icvps2) && U16(b, l.sizeAt) <= |b|
  }

  function Get(b: seq<byte>, l: Layout, k: Key): (v: seq<byte>)
    requires Room(b, l)
    ensures |v| == KeyLength(k)
  {
    b[Place(b, l, k)..Place(b, l, k) + KeyLength(k)]
  }

  function Stored(b: seq<byte>, l: Layout, k: Key, v: seq<byte>): (r: seq<byte>)
    requires Room(b, l) && |v| == KeyLength(k)
  {
    Patch(b, Place(b, l, k), v)
  }

  lemma PlacesApart(b: seq<byte>, l: Layout)
    requires Room(b, l)
    ensures HEADER <= Place(b, l, Kbit) && Place(b, l, Kc) == Place(b, l, Kbit) + 16
    ensures Place(b, l, Kc) + 16 <= Place(b, l, Icvps2) && Place(b, l, Icvps2) + 8 <= |b|
  {
  }

  /** No store moves a key: the fields and the length byte that the places depend on lie in front of all three. */
  lemma StoreKeepsPlaces(b: seq<byte>, l: Layout, k: Key, v: seq<byte>)
    requires Room(b, l) && |v| == KeyLength(k)
    ensures |Stored(b, l, k, v)| == |b| && Room(Stored(b, l, k, v), l)
    ensures forall j :: Place(Stored(b, l, k, v), l, j) == Place(b, l, j)
  {
    var r, at := Stored(b, l, k, v), Place(b, l, k);
    assert forall o :: 0 <= o < HEADER ==> r[o] == b[o];
    assert TableEnd(r, l) == TableEnd(b, l);
    assert r[TableEnd(b, l)] == b[TableEnd(b, l)] || (at <= TableEnd(b, l) && U16(b, l.flagsAt) % 2 == 0);
    assert Place(r, l, Kbit) == Place(b, l, Kbit) && Place(r, l, Icvps2) == Place(b, l, Icvps2);
  }

  /** Storing one key changes no other. */
  lemma StoreKeepsOthers(b: seq<byte>, l: Layout, k: Key, v: seq<byte>, other: Key)
    requires Room(b, l) && |v| == KeyLength(k)
    ensures Room(Stored(b, l, k, v), l)
    ensures Get(Stored(b, l, k, v), l, other) == if other == k then v else Get(b, l, other)
  {
    hide Place;
    PlacesApart(b, l);
    StoreKeepsPlaces(b, l, k, v);
  }

  datatype Store = Store(key: Key, value: seq<byte>) {
    predicate Fits() {
      |value| == KeyLength(key)
    }
  }

  /** Any number of stores, in any order. */
  function AfterStores(b: seq<byte>, l: Layout, stores: seq<Store>): (r: seq<byte>)
    requires Room(b, l) && forall i :: 0 <= i < |stores| ==> stores[i].Fits()
    ensures |r| == |b| && Room(r, l)
    ensures forall k :: Place(r, l, k) == Place(b, l, k)
  {
    if stores == [] then b else
    var n := |stores| - 1;
    var before := AfterStores(b, l, stores[..n]);
    assert stores[n].Fits();
    StoreKeepsPlaces(before, l, stores[n].key, stores[n].value);
    Stored(before, l, stores[n].key, stores[n].value)
  }

  /** A get gives what was last stored for that key, whatever else was stored; all other bytes are the original ones. */
  lemma {:induction false} GetGivesLastStore(b: seq<byte>, l: Layout, stores: seq<Store>, k: Key, w: nat)
    requires Room(b, l) && forall i :: 0 <= i < |stores| ==> stores[i].Fits()
    requires w <= |stores| && forall i :: w <= i < |stores| ==> stores[i].key != k
    requires w == 0 || stores[w - 1].key == k
    ensures Get(AfterStores(b, l, stores), l, k) == if w == 0 then Get(b, l, k) else stores[w - 1].value
    ensures forall o :: 0 <= o < |b| && (forall j :: !(Place(b, l, j) <= o < Place(b, l, j) + KeyLength(j))) ==> AfterStores(b, l, stores)[o] == b[o]
  {
    hide Place, Room;
    if stores != [] {
      var n := |stores| - 1;
      StoreKeepsOthers(AfterStores(b, l, stores[..n]), l, stores[n].key, stores[n].value, k);
      if w == |stores| {
        Untouched(b, l, stores);
      } else {
        GetGivesLastStore(b, l, stores[..n], k, w);
      }
    }
  }

  lemma {:induction false} Untouched(b: seq<byte>, l: Layout, stores: seq<Store>)
    requires Room(b, l) && forall i :: 0 <= i < |stores| ==> stores[i].Fits()
    ensures forall o :: 0 <= o < |b| && (forall j :: !(Place(b, l, j) <= o < Place(b, l, j) + KeyLength(j))) ==> AfterStores(b, l, stores)[o] == b[o]
  {
    if stores != [] {
      Untouched(b, l, stores[..|stores| - 1]);
    }
  }

  /**
   * The offset computation is written out in ten functions. Some use the sizes of the header and of an entry of the bit
   * table as the SDK defines them, others the numbers 0x20 and 0x10.
   */
  datatype Sizes = Sizes(header: nat, entry: nat)

  const AS_NUMBERS := Sizes(0x20, 0x10)

  function TableEndAs(b: seq<byte>, l: Layout, z: Sizes): nat
    requires l.Valid() && HEADER <= |b|
  {
    z.header + Times(U16(b, l.countAt), z.entry)
  }

  function KbitAs(b: seq<byte>, l: Layout, z: Sizes): nat
    requires l.Valid() && HEADER <= |b| && TableEndAs(b, l, z) < |b|
  {
    var flags, table := U16(b, l.flagsAt), TableEndAs(b, l, z);
    var length: int := b[table];
    table + (if flags % 2 == 1 then length + 1 else 0) + if flags / 0x1000 == 0 then 8 else 0
  }

  lemma NumbersGivePlace(b: seq<byte>, l: Layout)
    requires Room(b, l)
    ensures TableEndAs(b, l, AS_NUMBERS) < |b| && KbitAs(b, l, AS_NUMBERS) == Place(b, l, Kbit)
  {
    TimesIsProduct(U16(b, l.countAt), 0x10);
  }

  /** A header of zeros, but for the number of table entries and the length of the header. */
  function Plain(l: Layout, count: nat, length: nat): (b: seq<byte>)
    requires l.Valid() && count < 0x1_0000
    ensures |b| == HEADER + 300 + length
    ensures U16(b, l.countAt) == count && U16(b, l.flagsAt) == 0 && U16(b, l.sizeAt) == 256
  {
    assert U16(OfU16(count), 0) == count && U16(OfU16(256), 0) == 256;
    Patch(Patch(seq(HEADER + 300 + length, _ => 0), l.countAt, OfU16(count)), l.sizeAt, OfU16(256))
  }

  ghost predicate SamePlace(l: Layout, z: Sizes) {
    forall b: seq<byte> :: Room(b, l) && TableEndAs(b, l, z) < |b| ==> KbitAs(b, l, z) == Place(b, l, Kbit)
  }

  /** The copies that use sizes and those that use numbers find the same place in every header exactly if the sizes are those numbers. */
  lemma CopiesAgreeExactly(l: Layout, z: Sizes)
    requires l.Valid()
    ensures SamePlace(l, z) <==> z == AS_NUMBERS
  {
    hide Place, KbitAs, TableEndAs;
    if z == AS_NUMBERS {
      forall b: seq<byte> | Room(b, l) && TableEndAs(b, l, z) < |b|
        ensures KbitAs(b, l, z) == Place(b, l, Kbit)
      {
        NumbersGivePlace(b, l);
      }
    } else {
      var b := OtherSizesDisagree(l, z);
    }
  }

  lemma OtherSizesDisagree(l: Layout, z: Sizes) returns (b: seq<byte>)
    requires l.Valid() && z != AS_NUMBERS
    ensures Room(b, l) && TableEndAs(b, l, z) < |b| && KbitAs(b, l, z) != Place(b, l, Kbit)
  {
    hide U16;
    var count := if z.header != 0x20 then 0 else 1;
    b := Plain(l, count, z.header + z.entry);
    assert Times(1, z.entry) == Times(0, z.entry) + z.entry;
  }

  /** The computation itself, with the sizes that a copy uses. */
  method FindKbit(buffer: array<byte>, l: Layout, z: Sizes) returns (offset: nat)
    requires l.Valid() && HEADER <= buffer.Length && TableEndAs(buffer[..], l, z) < buffer.Length
    ensures offset == KbitAs(buffer[..], l, z)
    ensures z == AS_NUMBERS ==> TableEnd(buffer[..], l) < buffer.Length && offset == Place(buffer[..], l, Kbit)
  {
    var flags, count := U16(buffer[..], l.flagsAt), U16(buffer[..], l.countAt);
    TimesIsProduct(count, z.entry);
    offset := z.header;
    if count > 0 { offset := offset + Times(count, z.entry); }
    if flags % 2 == 1 { offset := offset + buffer[offset] + 1; }
    if flags / 0x1000 == 0 { offset := offset + 8; }
  }

  /** get_BitTableOffset: the bit table lies behind Kbit and Kc. */
  method GetBitTableOffset(buffer: array<byte>, l: Layout, z: Sizes) returns (offset: nat)
    requires Room(buffer[..], l) && TableEndAs(buffer[..], l, z) < buffer.Length
    ensures z == AS_NUMBERS ==> offset == Place(buffer[..], l, Kc) + KeyLength(Kc) <= Place(buffer[..], l, Icvps2)
    ensures offset == KbitAs(buffer[..], l, z) + 0x20
  {
    NumbersGivePlace(buffer[..], l);
    offset := FindKbit(buffer, l, z);
    offset := offset + 0x20;
  }

  method StoreKbit(buffer: array<byte>, l: Layout, kbit: seq<byte>)
    requires Room(buffer[..], l) && |kbit| == 16
    modifies buffer
    ensures buffer[..] == Stored(old(buffer[..]), l, Kbit, kbit)
  {
    NumbersGivePlace(buffer[..], l);
    var offset := FindKbit(buffer, l, AS_NUMBERS);
    CopyIn(buffer, offset, kbit);
  }

  method StoreKc(buffer: array<byte>, l: Layout, kc: seq<byte>)
    requires Room(buffer[..], l) && |kc| == 16
    modifies buffer
    ensures buffer[..] == Stored(old(buffer[..]), l, Kc, kc)
  {
    NumbersGivePlace(buffer[..], l);
    var offset := FindKbit(buffer, l, AS_NUMBERS);
    CopyIn(buffer, offset + 0x10, kc);
  }

  method StoreIcvps2(buffer: array<byte>, l: Layout, icvps2: seq<byte>)
    requires Room(buffer[..], l) && |icvps2| == 8
    modifies buffer
    ensures buffer[..] == Stored(old(buffer[..]), l, Icvps2, icvps2)
  {
    CopyIn(buffer, U16(buffer[..], l.sizeAt) - 8, icvps2);
  }

  /** The header says that the file is bound to a card, by its second flag. */
  predicate UsesIcvps2(b: seq<byte>, l: Layout)
    requires l.Valid() && HEADER <= |b|
  {
    U16(b, l.flagsAt) / 2 % 2 == 1
  }

  /** What is stored of the keys that the MechaCon gives. */
  function Given(kbit: Option<seq<byte>>, kc: Option<seq<byte>>, icvps2: Option<seq<byte>>): seq<Store> {
    if kbit.None? || kc.None? then [] else
    [Store(Kbit, kbit.value), Store(Kc, kc.value)] + if icvps2.Some? then [Store(Icvps2, icvps2.value)] else []
  }

  /** The end of SecrDownloadFile, which asks for ICVPS2 only after the other two are stored, and only if the header has it. */
  method StoreGiven(buffer: array<byte>, l: Layout, kbit: Option<seq<byte>>, kc: Option<seq<byte>>, icvps2: Option<seq<byte>>) returns (ok: bool)
    requires Room(buffer[..], l)
    requires (kbit.Some? ==> |kbit.value| == 16) && (kc.Some? ==> |kc.value| == 16) && (icvps2.Some? ==> |icvps2.value| == 8)
    modifies buffer
    ensures ok <==> kbit.Some? && kc.Some? && (UsesIcvps2(old(buffer[..]), l) ==> icvps2.Some?)
    ensures buffer[..] == AfterStores(old(buffer[..]), l, Given(kbit, kc, if UsesIcvps2(old(buffer[..]), l) then icvps2 else None))
  {
    hide Place, Room, UsesIcvps2, Stored, AfterStores;
    HasHeader(buffer[..], l);
    if kbit.None? || kc.None? {
      NothingStored(buffer[..], l);
      return false;
    }
    ghost var b, first, second := buffer[..], Store(Kbit, kbit.value), Store(Kc, kc.value);
    NothingStored(b, l);
    StoresOneMore(b, l, [], first);
    StoreKeepsFlags(b, l, first);
    StoreKbit(buffer, l, kbit.value);
    StoresOneMore(b, l, [first], second);
    StoreKeepsFlags(buffer[..], l, second);
    StoreKc(buffer, l, kc.value);
    assert [] + [first] == [first] && [first] + [second] == [first, second] && [first, second] + [] == [first, second];
    HasHeader(buffer[..], l);
    ok := true;
    if UsesIcvps2(buffer[..], l) {
      if icvps2.None? { return false; }
      StoresOneMore(b, l, [first, second], Store(Icvps2, icvps2.value));
      StoreIcvps2(buffer, l, icvps2.value);
    }
  }

  lemma NothingStored(b: seq<byte>, l: Layout)
    requires Room(b, l)
    ensures AfterStores(b, l, []) == b
  {
  }

  lemma StoresOneMore(b: seq<byte>, l: Layout, stores: seq<Store>, store: Store)
    requires Room(b, l) && store.Fits() && forall i :: 0 <= i < |stores| ==> stores[i].Fits()
    ensures AfterStores(b, l, stores + [store]) == Stored(AfterStores(b, l, stores), l, store.key, store.value)
  {
    hide Place, Room;
    assert (stores + [store])[..|stores|] == stores;
  }

  lemma StoreKeepsFlags(b: seq<byte>, l: Layout, store: Store)
    requires Room(b, l) && store.Fits()
    ensures var r := Stored(b, l, store.key, store.value);
            Room(r, l) && |r| == |b| && UsesIcvps2(r, l) == UsesIcvps2(b, l)
  {
    hide Place, Room, U16;
    PlacesApart(b, l);
    StoreKeepsPlaces(b, l, store.key, store.value);
    HasHeader(b, l);
    var r := Stored(b, l, store.key, store.value);
    assert r[..HEADER] == b[..HEADER];
    SameField(r, r[..HEADER], l.flagsAt);
    SameField(b, b[..HEADER], l.flagsAt);
  }

  lemma HasHeader(b: seq<byte>, l: Layout)
    requires Room(b, l)
    ensures l.Valid() && HEADER <= |b|
  {
  }

  method GetKbitAndKc(buffer: array<byte>, l: Layout) returns (kbit: seq<byte>, kc: seq<byte>)
    requires Room(buffer[..], l)
    ensures kbit == Get(buffer[..], l, Kbit) && kc == Get(buffer[..], l, Kc)
  {
    NumbersGivePlace(buffer[..], l);
    var offset := FindKbit(buffer, l, AS_NUMBERS);
    kbit, kc := buffer[offset..offset + 16], buffer[offset + 16..offset + 32];
  }

  method SetKbitAndKc(buffer: array<byte>, l: Layout, kbit: seq<byte>, kc: seq<byte>)
    requires Room(buffer[..], l) && |kbit| == 16 && |kc| == 16
    modifies buffer
    ensures buffer[..] == AfterStores(old(buffer[..]), l, [Store(Kbit, kbit), Store(Kc, kc)])
  {
    NumbersGivePlace(buffer[..], l);
    var offset := FindKbit(buffer, l, AS_NUMBERS);
    ghost var b := buffer[..];
    CopyIn(buffer, offset, kbit);
    CopyIn(buffer, offset + 16, kc);
    var stores := [Store(Kbit, kbit), Store(Kc, kc)];
    assert stores[..1] == [stores[0]] && stores[..1][..0] == [];
    assert AfterStores(b, l, stores[..1]) == Stored(b, l, Kbit, kbit);
  }

  /** The key transplant of TwinSignKELF: the other file's two keys, and 32 changed bytes at most. */
  method TransplantKeys(signed: array<byte>, buffer: array<byte>, l: Layout)
    requires signed != buffer && Room(signed[..], l) && Room(buffer[..], l)
    modifies buffer
    ensures Room(buffer[..], l) && |buffer[..]| == |old(buffer[..])|
    ensures Get(buffer[..], l, Kbit) == Get(signed[..], l, Kbit) && Get(buffer[..], l, Kc) == Get(signed[..], l, Kc)
    ensures var at := Place(old(buffer[..]), l, Kbit);
            forall o :: 0 <= o < buffer.Length && !(at <= o < at + 32) ==> buffer[o] == old(buffer[o])
  {
    var kbit, kc := GetKbitAndKc(signed, l);
    ghost var b := buffer[..];
    SetKbitAndKc(buffer, l, kbit, kc);
    var stores := [Store(Kbit, kbit), Store(Kc, kc)];
    GetGivesLastStore(b, l, stores, Kbit, 1);
    GetGivesLastStore(b, l, stores, Kc, 2);
    assert stores[..1] == [stores[0]] && stores[..1][..0] == [];
    assert AfterStores(b, l, stores[..1]) == Stored(b, l, Kbit, kbit);
    assert buffer[..] == Stored(Stored(b, l, Kbit, kbit), l, Kc, kc);
  }
}
