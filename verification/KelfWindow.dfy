/**
 * Reading and decrypting a KELF a window at a time (func_0000306c of secrman.c), beside the loop that decrypts a whole
 * file in memory (SecrCardBootFile). How a block is decrypted is left open.
 */
module KelfWindow {
  import opened Wrappers
  import opened Bytes

  datatype Block = Block(size: nat, flags: nat)

  /** Flags 1 and 2 mark a block whose contents are encrypted. */
  predicate Encrypted(b: Block) {
    b.flags % 4 != 0
  }

  /** SecrCardBootBlock or SecrDiskBootBlock: may fail, and otherwise keeps the size. */
  type Cipher = seq<byte> -> Option<seq<byte>>

  ghost predicate KeepsSize(decrypt: Cipher) {
    forall s: seq<byte> :: decrypt(s).Some? ==> |decrypt(s).value| == |s|
  }

  /** Where block `i` starts in the payload. */
  function Offset(blocks: seq<Block>, i: nat): nat
    requires i <= |blocks|
  {
    if i == 0 then 0 else Offset(blocks, i - 1) + blocks[i - 1].size
  }

  function Total(blocks: seq<Block>): nat {
    Offset(blocks, |blocks|)
  }

  lemma {:induction false} OffsetGrows(blocks: seq<Block>, i: nat, j: nat)
    requires i <= j <= |blocks|
    ensures Offset(blocks, i) <= Offset(blocks, j)
  {
    if i < j {
      OffsetGrows(blocks, i, j - 1);
    }
  }

  lemma OffsetNext(blocks: seq<Block>, i: nat)
    requires i < |blocks|
    ensures Offset(blocks, i + 1) == Offset(blocks, i) + blocks[i].size
  {
  }

  function Raw(blocks: seq<Block>, payload: seq<byte>, i: nat): (s: seq<byte>)
    requires i < |blocks| && Offset(blocks, i + 1) <= |payload|
    ensures |s| == blocks[i].size
  {
    payload[Offset(blocks, i)..Offset(blocks, i + 1)]
  }

  function ClearBlock(b: Block, raw: seq<byte>, decrypt: Cipher): Option<seq<byte>> {
    if Encrypted(b) then decrypt(raw) else Some(raw)
  }

  /** The first `i` blocks of the payload, each encrypted one decrypted once and whole. */
  function Clear(blocks: seq<Block>, payload: seq<byte>, decrypt: Cipher, i: nat): Option<seq<byte>>
    requires i <= |blocks| && Offset(blocks, i) <= |payload|
  {
    if i == 0 then Some([]) else
    match Clear(blocks, payload, decrypt, i - 1)
    case None => None
    case Some(before) =>
      match ClearBlock(blocks[i - 1], Raw(blocks, payload, i - 1), decrypt)
      case None => None
      case Some(block) => Some(before + block)
  }

  lemma {:induction false} ClearLength(blocks: seq<Block>, payload: seq<byte>, decrypt: Cipher, i: nat)
    requires KeepsSize(decrypt) && i <= |blocks| && Offset(blocks, i) <= |payload|
    requires Clear(blocks, payload, decrypt, i).Some?
    ensures |Clear(blocks, payload, decrypt, i).value| == Offset(blocks, i)
  {
    if i > 0 {
      ClearLength(blocks, payload, decrypt, i - 1);
    }
  }

  /** The decrypted file, block by block. */
  lemma {:induction false} ClearAt(blocks: seq<Block>, payload: seq<byte>, decrypt: Cipher, i: nat, j: nat)
    requires KeepsSize(decrypt) && j < i <= |blocks| && Offset(blocks, i) <= |payload|
    requires Clear(blocks, payload, decrypt, i).Some?
    ensures Offset(blocks, j + 1) <= |Clear(blocks, payload, decrypt, i).value|
    ensures Offset(blocks, j + 1) <= |payload|
    ensures ClearBlock(blocks[j], Raw(blocks, payload, j), decrypt)
         == Some(Clear(blocks, payload, decrypt, i).value[Offset(blocks, j)..Offset(blocks, j + 1)])
  {
    ClearLength(blocks, payload, decrypt, i);
    ClearLength(blocks, payload, decrypt, i - 1);
    OffsetGrows(blocks, j + 1, i);
    var before, block := Clear(blocks, payload, decrypt, i - 1).value, ClearBlock(blocks[i - 1], Raw(blocks, payload, i - 1), decrypt).value;
    if j < i - 1 {
      ClearAt(blocks, payload, decrypt, i - 1, j);
      OffsetGrows(blocks, j + 1, i - 1);
      FrontOf(before, block, Offset(blocks, j), Offset(blocks, j + 1));
    } else {
      BackOf(before, block);
    }
  }

  lemma FrontOf(s: seq<byte>, more: seq<byte>, b: nat, c: nat)
    requires b <= c <= |s|
    ensures (s + more)[b..c] == s[b..c]
  {
  }

  lemma BackOf(s: seq<byte>, more: seq<byte>)
    ensures (s + more)[|s|..|s| + |more|] == more
  {
  }

  /** In terms of the flags: a block whose two lowest flags are clear is delivered as it is, any other one is decrypted. */
  ghost predicate ByFlags(blocks: seq<Block>, payload: seq<byte>, decrypt: Cipher, all: seq<byte>) {
    |all| == Total(blocks) && forall j :: 0 <= j < |blocks| ==> BlockByFlags(blocks, payload, decrypt, all, j)
  }

  ghost predicate BlockByFlags(blocks: seq<Block>, payload: seq<byte>, decrypt: Cipher, all: seq<byte>, j: nat)
    requires j < |blocks|
  {
    var from, to := Offset(blocks, j), Offset(blocks, j + 1);
    && to <= |payload| && to <= |all|
    && if blocks[j].flags % 4 == 0 then all[from..to] == payload[from..to] else decrypt(payload[from..to]) == Some(all[from..to])
  }

  lemma ClearByFlags(blocks: seq<Block>, payload: seq<byte>, decrypt: Cipher)
    requires KeepsSize(decrypt) && Total(blocks) <= |payload| && Clear(blocks, payload, decrypt, |blocks|).Some?
    ensures ByFlags(blocks, payload, decrypt, Clear(blocks, payload, decrypt, |blocks|).value)
  {
    hide Clear, KeepsSize;
    ClearLength(blocks, payload, decrypt, |blocks|);
    forall j: nat | j < |blocks|
      ensures BlockByFlags(blocks, payload, decrypt, Clear(blocks, payload, decrypt, |blocks|).value, j)
    {
      ClearAt(blocks, payload, decrypt, |blocks|, j);
    }
  }

  /** Block `j` is plain by its flags, or can be decrypted. */
  ghost predicate Decrypts(blocks: seq<Block>, payload: seq<byte>, decrypt: Cipher, j: nat)
    requires j < |blocks|
  {
    blocks[j].flags % 4 == 0 ||
    (Offset(blocks, j + 1) <= |payload| && decrypt(payload[Offset(blocks, j)..Offset(blocks, j + 1)]).Some?)
  }

  /** The whole file can be decrypted exactly if each of its blocks can. */
  lemma {:induction false} ClearExactlyIfAllDecrypt(blocks: seq<Block>, payload: seq<byte>, decrypt: Cipher, i: nat)
    requires i <= |blocks| && Total(blocks) <= |payload|
    ensures Offset(blocks, i) <= |payload|
    ensures Clear(blocks, payload, decrypt, i).Some? <==> forall j :: 0 <= j < i ==> Decrypts(blocks, payload, decrypt, j)
  {
    OffsetGrows(blocks, i, |blocks|);
    if i > 0 {
      ClearExactlyIfAllDecrypt(blocks, payload, decrypt, i - 1);
      assert Decrypts(blocks, payload, decrypt, i - 1) <==> ClearBlock(blocks[i - 1], Raw(blocks, payload, i - 1), decrypt).Some?;
    }
  }

  /** The cipher, but with what cannot be decrypted left as it is. */
  function Sure(decrypt: Cipher): Cipher {
    s => match decrypt(s) case None => Some(s) case Some(plain) => Some(plain)
  }

  lemma SureOf(decrypt: Cipher, s: seq<byte>)
    ensures decrypt(s).Some? ==> Sure(decrypt)(s) == decrypt(s)
  {
  }

  /** The file with every block decrypted that can be. */
  ghost function SureText(blocks: seq<Block>, payload: seq<byte>, decrypt: Cipher): seq<byte>
    requires Total(blocks) <= |payload|
  {
    SureClear(blocks, payload, decrypt, |blocks|);
    Clear(blocks, payload, Sure(decrypt), |blocks|).value
  }

  lemma {:induction false} SureClear(blocks: seq<Block>, payload: seq<byte>, decrypt: Cipher, i: nat)
    requires i <= |blocks| && Offset(blocks, i) <= |payload|
    ensures Clear(blocks, payload, Sure(decrypt), i).Some?
    ensures Clear(blocks, payload, decrypt, i).Some? ==> Clear(blocks, payload, Sure(decrypt), i) == Clear(blocks, payload, decrypt, i)
  {
    if i > 0 {
      SureClear(blocks, payload, decrypt, i - 1);
    }
  }

  lemma SureTextIs(blocks: seq<Block>, payload: seq<byte>, decrypt: Cipher)
    requires KeepsSize(decrypt) && Total(blocks) <= |payload|
    ensures KeepsSize(Sure(decrypt)) && Clear(blocks, payload, Sure(decrypt), |blocks|) == Some(SureText(blocks, payload, decrypt))
    ensures |SureText(blocks, payload, decrypt)| == Total(blocks)
    ensures Clear(blocks, payload, decrypt, |blocks|).Some? ==> Clear(blocks, payload, decrypt, |blocks|) == Some(SureText(blocks, payload, decrypt))
  {
    SureClear(blocks, payload, decrypt, |blocks|);
    ClearLength(blocks, payload, Sure(decrypt), |blocks|);
  }

  /** One block decrypted in place. */
  method DecryptAt(buffer: array<byte>, offset: nat, size: nat, decrypt: Cipher) returns (ok: bool)
    requires KeepsSize(decrypt) && offset + size <= buffer.Length
    modifies buffer
    ensures ok == decrypt(old(buffer[..])[offset..offset + size]).Some?
    ensures ok ==> buffer[..] == Patch(old(buffer[..]), offset, decrypt(old(buffer[..])[offset..offset + size]).value)
  {
    var clear := decrypt(buffer[offset..offset + size]);
    ok := clear.Some?;
    if ok {
      forall k | 0 <= k < size {
        buffer[offset + k] := clear.value[k];
      }
    }
  }

  lemma {:induction false} ClearFails(blocks: seq<Block>, payload: seq<byte>, decrypt: Cipher, i: nat, j: nat)
    requires i <= j <= |blocks| && Offset(blocks, i) <= Offset(blocks, j) <= |payload|
    requires Clear(blocks, payload, decrypt, i).None?
    ensures Clear(blocks, payload, decrypt, j).None?
  {
    if i < j {
      OffsetGrows(blocks, i, j - 1);
      ClearFails(blocks, payload, decrypt, i, j - 1);
    }
  }

  /** A buffer that has been decrypted up to block `i`. */
  function Halfway(blocks: seq<Block>, payload: seq<byte>, decrypt: Cipher, i: nat): seq<byte>
    requires i <= |blocks| && Offset(blocks, i) <= |payload| && Clear(blocks, payload, decrypt, i).Some?
  {
    Clear(blocks, payload, decrypt, i).value + payload[Offset(blocks, i)..]
  }

  lemma HalfwayNext(blocks: seq<Block>, payload: seq<byte>, decrypt: Cipher, i: nat)
    requires KeepsSize(decrypt) && i < |blocks| && Offset(blocks, i + 1) <= |payload|
    requires Clear(blocks, payload, decrypt, i).Some?
    ensures var half := Halfway(blocks, payload, decrypt, i);
            && |half| == |payload| && half[Offset(blocks, i)..Offset(blocks, i + 1)] == Raw(blocks, payload, i)
            && match ClearBlock(blocks[i], Raw(blocks, payload, i), decrypt)
               case None => Clear(blocks, payload, decrypt, i + 1).None?
               case Some(block) =>
                 && Clear(blocks, payload, decrypt, i + 1).Some?
                 && |block| == blocks[i].size
                 && Halfway(blocks, payload, decrypt, i + 1) == Patch(half, Offset(blocks, i), block)
  {
    hide Patch;
    ClearLength(blocks, payload, decrypt, i);
    var raw := Raw(blocks, payload, i);
    match ClearBlock(blocks[i], raw, decrypt)
    case None =>
      PatchMiddle(Clear(blocks, payload, decrypt, i).value, payload, Offset(blocks, i + 1), raw);
    case Some(block) =>
      PatchMiddle(Clear(blocks, payload, decrypt, i).value, payload, Offset(blocks, i + 1), block);
  }

  /** A buffer that holds `done` and then the rest of `was`, before and after its next piece is replaced. */
  lemma PatchMiddle(done: seq<byte>, was: seq<byte>, next: nat, block: seq<byte>)
    requires |done| <= next <= |was| && |block| == next - |done|
    ensures var half := done + was[|done|..];
            half[|done|..next] == was[|done|..next] && Patch(half, |done|, block) == done + block + was[next..]
  {
    var half := done + was[|done|..];
    assert half[..|done|] == done && half[|done|..] == was[|done|..] && half[next..] == was[next..];
  }

  /** SecrCardBootFile, after the header: every encrypted block of the buffer is decrypted in place. */
  method BootFile(blocks: seq<Block>, buffer: array<byte>, decrypt: Cipher) returns (ok: bool)
    requires KeepsSize(decrypt) && Total(blocks) <= buffer.Length
    modifies buffer
    ensures ok <==> Clear(blocks, old(buffer[..]), decrypt, |blocks|).Some?
    ensures ok ==> buffer[..] == Halfway(blocks, old(buffer[..]), decrypt, |blocks|)
    ensures ok ==> ByFlags(blocks, old(buffer[..]), decrypt, buffer[..Total(blocks)])
    ensures buffer.Length == |old(buffer[..])| && (ok ==> buffer[Total(blocks)..] == old(buffer[Total(blocks)..]))
  {
    hide Clear, Halfway, ByFlags;
    ghost var was := buffer[..];
    assert Clear(blocks, was, decrypt, 0).Some? && was == Halfway(blocks, was, decrypt, 0) by { NothingDone(blocks, was, decrypt); }
    var offset := 0;
    for i := 0 to |blocks|
      invariant offset == Offset(blocks, i) <= Total(blocks)
      invariant Clear(blocks, was, decrypt, i).Some? && buffer[..] == Halfway(blocks, was, decrypt, i)
    {
      OffsetGrows(blocks, i + 1, |blocks|);
      ok := BootBlock(blocks, was, buffer, i, offset, decrypt);
      if !ok {
        ClearFails(blocks, was, decrypt, i + 1, |blocks|);
        return;
      }
      offset := offset + blocks[i].size;
    }
    ok := true;
    ClearByFlags(blocks, was, decrypt);
    AllDone(blocks, was, decrypt);
    assert buffer[..Total(blocks)] == buffer[..][..Total(blocks)] && buffer[Total(blocks)..] == buffer[..][Total(blocks)..];
  }

  lemma AllDone(blocks: seq<Block>, payload: seq<byte>, decrypt: Cipher)
    requires KeepsSize(decrypt) && Total(blocks) <= |payload| && Clear(blocks, payload, decrypt, |blocks|).Some?
    ensures var all, total := Halfway(blocks, payload, decrypt, |blocks|), Total(blocks);
            |all| == |payload| && all[..total] == Clear(blocks, payload, decrypt, |blocks|).value && all[total..] == payload[total..]
  {
    ClearLength(blocks, payload, decrypt, |blocks|);
  }

  lemma NothingDone(blocks: seq<Block>, payload: seq<byte>, decrypt: Cipher)
    ensures Clear(blocks, payload, decrypt, 0).Some? && payload == Halfway(blocks, payload, decrypt, 0)
  {
    assert payload[0..] == payload;
  }

  /** One block of the file, decrypted in place if it is encrypted. */
  method BootBlock(blocks: seq<Block>, ghost was: seq<byte>, buffer: array<byte>, i: nat, offset: nat, decrypt: Cipher)
    returns (ok: bool)
    requires KeepsSize(decrypt) && i < |blocks| && offset == Offset(blocks, i) && Offset(blocks, i + 1) <= |was|
    requires Clear(blocks, was, decrypt, i).Some? && buffer[..] == Halfway(blocks, was, decrypt, i)
    modifies buffer
    ensures ok == Clear(blocks, was, decrypt, i + 1).Some?
    ensures ok ==> buffer[..] == Halfway(blocks, was, decrypt, i + 1)
  {
    hide Raw, Encrypted, Clear, Halfway;
    HalfwayNext(blocks, was, decrypt, i);
    ok := true;
    if Encrypted(blocks[i]) {
      ok := DecryptAt(buffer, offset, blocks[i].size, decrypt);
    }
  }

  /** No encrypted block is cut in two at `o`. */
  ghost predicate BetweenBlocks(blocks: seq<Block>, o: nat) {
    forall i :: 0 <= i < |blocks| && Encrypted(blocks[i]) ==> !(Offset(blocks, i) < o < Offset(blocks, i + 1))
  }

  /** Where a window from `o` of at most `max` bytes ends, looking from block `i` on. */
  function End(blocks: seq<Block>, i: nat, o: nat, max: nat): nat
    requires i <= |blocks|
    decreases |blocks| - i
  {
    if i == |blocks| then Offset(blocks, i)
    else if Offset(blocks, i + 1) - o < max then End(blocks, i + 1, o, max)
    else if Encrypted(blocks[i]) then Offset(blocks, i)
    else o + max
  }

  /** The block that a window from `o` stops in front of, or inside of, looking from block `i` on. */
  function LastIn(blocks: seq<Block>, i: nat, o: nat, max: nat): (k: nat)
    requires i <= |blocks|
    ensures i <= k <= |blocks|
    decreases |blocks| - i
  {
    if i < |blocks| && Offset(blocks, i + 1) - o < max then LastIn(blocks, i + 1, o, max) else i
  }

  /** Every block of a window from `o` is plain, or can be decrypted. */
  ghost predicate WindowDecrypts(blocks: seq<Block>, payload: seq<byte>, decrypt: Cipher, o: nat, max: nat) {
    forall j :: First(blocks, o, 0) <= j < LastIn(blocks, First(blocks, o, 0), o, max) ==> Decrypts(blocks, payload, decrypt, j)
  }

  /** The block that `o` lies in, looking from block `i` on. */
  function First(blocks: seq<Block>, o: nat, i: nat): (k: nat)
    requires i <= |blocks|
    ensures i <= k <= |blocks|
    ensures k < |blocks| ==> o < Offset(blocks, k + 1)
    ensures i < k ==> Offset(blocks, k) <= o
    decreases |blocks| - i
  {
    if i == |blocks| || o < Offset(blocks, i + 1) then i else First(blocks, o, i + 1)
  }

  function WindowEnd(blocks: seq<Block>, o: nat, max: nat): nat {
    End(blocks, First(blocks, o, 0), o, max)
  }

  /** A window starts and ends between blocks or inside a plain one, and is not too long. */
  lemma {:induction false} EndIsBetweenBlocks(blocks: seq<Block>, i: nat, o: nat, max: nat)
    requires i <= |blocks| && o <= Total(blocks)
    requires o <= Offset(blocks, i) <= o + max || (i < |blocks| && !Encrypted(blocks[i]) && Offset(blocks, i) <= o < Offset(blocks, i + 1))
    ensures o <= End(blocks, i, o, max) <= o + max
    ensures End(blocks, i, o, max) <= Total(blocks)
    ensures BetweenBlocks(blocks, End(blocks, i, o, max))
    decreases |blocks| - i
  {
    var e := End(blocks, i, o, max);
    if i < |blocks| && Offset(blocks, i + 1) - o < max {
      EndIsBetweenBlocks(blocks, i + 1, o, max);
    } else {
      OffsetGrows(blocks, if i < |blocks| then i + 1 else i, |blocks|);
      forall j | 0 <= j < |blocks| && Encrypted(blocks[j])
        ensures !(Offset(blocks, j) < e < Offset(blocks, j + 1))
      {
        if j < i {
          OffsetGrows(blocks, j + 1, i);
        } else if i < j {
          OffsetGrows(blocks, i + 1, j);
        }
      }
    }
  }

  /** No window from in front of an encrypted block of `max` bytes or more reaches into it. */
  lemma {:induction false} EndStopsAtLongBlock(blocks: seq<Block>, i: nat, o: nat, max: nat, j: nat)
    requires i <= j < |blocks| && Encrypted(blocks[j]) && max <= blocks[j].size && o <= Offset(blocks, j)
    ensures End(blocks, i, o, max) <= Offset(blocks, j)
    decreases |blocks| - i
  {
    if i < j {
      OffsetGrows(blocks, i + 1, j);
      if Offset(blocks, i + 1) - o < max {
        EndStopsAtLongBlock(blocks, i + 1, o, max, j);
      }
    }
  }

  lemma {:induction false} EndNotBefore(blocks: seq<Block>, i: nat, o: nat, max: nat)
    requires i <= |blocks| && o <= Offset(blocks, i)
    ensures Offset(blocks, i) <= End(blocks, i, o, max) || o + max <= End(blocks, i, o, max)
    decreases |blocks| - i
  {
    if i < |blocks| && Offset(blocks, i + 1) - o < max {
      EndNotBefore(blocks, i + 1, o, max);
    }
  }

  lemma FirstIsReached(blocks: seq<Block>, o: nat)
    requires o <= Total(blocks)
    ensures Offset(blocks, First(blocks, o, 0)) <= o
    ensures First(blocks, o, 0) == |blocks| ==> o == Total(blocks)
  {
  }

  /** A window that cuts no block at its start cuts none at its end, and keeps to its length and to the payload. */
  lemma WindowFits(blocks: seq<Block>, o: nat, max: nat)
    requires o <= Total(blocks) && BetweenBlocks(blocks, o)
    ensures o <= WindowEnd(blocks, o, max) <= o + max && WindowEnd(blocks, o, max) <= Total(blocks)
    ensures BetweenBlocks(blocks, WindowEnd(blocks, o, max))
  {
    hide End;
    FirstIsReached(blocks, o);
    EndIsBetweenBlocks(blocks, First(blocks, o, 0), o, max);
  }

  /**
   * A window from inside the payload is empty, for ever since nothing then changes, exactly if it starts at an encrypted
   * block that is not shorter than the read buffer (or there is no read buffer).
   */
  lemma WindowIsEmptyExactlyAtLongBlock(blocks: seq<Block>, o: nat, max: nat)
    requires o < Total(blocks) && BetweenBlocks(blocks, o)
    ensures var i := First(blocks, o, 0);
            && i < |blocks|
            && (WindowEnd(blocks, o, max) == o <==> max == 0 || (Encrypted(blocks[i]) && max <= blocks[i].size))
  {
    var i := First(blocks, o, 0);
    FirstIsReached(blocks, o);
    assert Encrypted(blocks[i]) ==> Offset(blocks, i) == o;
    if Offset(blocks, i + 1) - o < max {
      EndNotBefore(blocks, i + 1, o, max);
    }
  }

  /** Unsigned 32-bit arithmetic. */
  function Wrap(x: int): (r: nat)
    ensures r < U32_RANGE
    ensures 0 <= x < U32_RANGE ==> r == x
  {
    x % U32_RANGE
  }

  lemma WrapAdd(a: int, b: int)
    ensures Wrap(Wrap(a) + b) == Wrap(a + b)
  {
  }

  lemma WrapIsZero(x: int)
    requires -U32_RANGE < x <= 0
    ensures Wrap(x) == 0 <==> x == 0
  {
  }

  class Kelf {
    const payload: seq<byte>
    var at: nat

    constructor (payload: seq<byte>)
      ensures this.payload == payload && at == 0
    {
      this.payload, at := payload, 0;
    }

    /** read returns fewer bytes than asked for only at the end of the file. */
    method Read(buffer: array<byte>, n: nat) returns (got: nat)
      requires n <= buffer.Length && at <= |payload|
      modifies this`at, buffer
      ensures got == if n <= |payload| - old(at) then n else |payload| - old(at)
      ensures at == old(at) + got
      ensures buffer[..got] == payload[old(at)..at]
    {
      got := if n <= |payload| - at then n else |payload| - at;
      forall k | 0 <= k < got {
        buffer[k] := payload[at + k];
      }
      at := at + got;
    }
  }

  /** ModloadUnk2_entry. */
  class Entry {
    const buffer: array<byte>
    var length: nat

    constructor (size: nat)
      ensures buffer.Length == size && fresh(buffer)
    {
      buffer := new byte[size];
      length := 0;
    }
  }

  /** ModloadUnk2, without its two entries. */
  class Modload {
    const readBufferLength: nat
    var readBufferOffset: nat

    constructor (readBufferLength: nat)
      ensures this.readBufferLength == readBufferLength && readBufferOffset == 0
    {
      this.readBufferLength, readBufferOffset := readBufferLength, 0;
    }
  }

  /** The first loop of func_0000306c: the block that offset `o` lies in, and where that block starts. */
  method FindBlock(blocks: seq<Block>, o: nat) returns (i: nat, payloadLength: nat)
    requires o <= Total(blocks) < U32_RANGE
    ensures i == First(blocks, o, 0) && payloadLength == Offset(blocks, i) <= o
  {
    i, payloadLength := 0, 0;
    while i < |blocks|
      invariant i <= |blocks| && payloadLength == Offset(blocks, i) <= o && First(blocks, o, 0) == First(blocks, o, i)
    {
      OffsetGrows(blocks, i + 1, |blocks|);
      if o < Wrap(payloadLength + blocks[i].size) { break; }
      payloadLength := Wrap(payloadLength + blocks[i].size);
      i := i + 1;
    }
  }

  /**
   * The second loop: `excess` is where block `first` starts relative to the window, below zero if the window starts
   * inside that block; it grows to the length of the window.
   */
  method ExtendWindow(blocks: seq<Block>, o: nat, max: nat, first: nat) returns (last: nat, excess: nat)
    requires Total(blocks) < U32_RANGE && max < U32_RANGE
    requires first == First(blocks, o, 0) && Offset(blocks, first) <= o <= Total(blocks)
    requires Offset(blocks, first) == o || (first < |blocks| && !Encrypted(blocks[first]))
    ensures first <= last <= |blocks| && o <= WindowEnd(blocks, o, max) == o + excess
    ensures last == LastIn(blocks, first, o, max)
    ensures Offset(blocks, last) <= o + excess
    ensures Offset(blocks, last) < o + excess ==>
              last < |blocks| && !Encrypted(blocks[last]) && o + excess <= Offset(blocks, last + 1)
  {
    hide Wrap, First, Encrypted, End, Offset, LastIn;
    last, excess := first, Wrap(Offset(blocks, first) - o);
    while last < |blocks|
      invariant first <= last <= |blocks| && excess == Wrap(Offset(blocks, last) - o)
      invariant End(blocks, last, o, max) == WindowEnd(blocks, o, max) && LastIn(blocks, last, o, max) == LastIn(blocks, first, o, max)
      invariant Stretched(blocks, o, max, first, last)
      decreases |blocks| - last
    {
      StretchNext(blocks, o, max, first, last);
      if Wrap(excess + blocks[last].size) >= max {
        if !Encrypted(blocks[last]) { excess := max; }
        return;
      }
      excess := Wrap(excess + blocks[last].size);
      last := last + 1;
    }
    AllStretched(blocks, o, max);
  }

  /** A window that goes on from block `last`, behind `first` or inside of it. */
  ghost predicate Stretched(blocks: seq<Block>, o: nat, max: nat, first: nat, last: nat)
    requires last <= |blocks|
  {
    if Offset(blocks, last) <= o
    then Offset(blocks, last) == o || (last == first && first < |blocks| && !Encrypted(blocks[first]))
    else Offset(blocks, last) - o < max
  }

  /** With one block more the excess is what it says, and shows whether the window ends here. */
  lemma StretchNext(blocks: seq<Block>, o: nat, max: nat, first: nat, last: nat)
    requires Total(blocks) < U32_RANGE && max < U32_RANGE && o <= Total(blocks)
    requires first == First(blocks, o, 0) <= last < |blocks| && Stretched(blocks, o, max, first, last)
    ensures var more := Offset(blocks, last + 1) - o;
            && Offset(blocks, last) <= Offset(blocks, last + 1) && 0 <= more
            && Wrap(Wrap(Offset(blocks, last) - o) + blocks[last].size) == more
            && LastIn(blocks, last, o, max) == (if more < max then LastIn(blocks, last + 1, o, max) else last)
            && (if more < max then Stretched(blocks, o, max, first, last + 1) && End(blocks, last + 1, o, max) == End(blocks, last, o, max)
                else End(blocks, last, o, max) == if Encrypted(blocks[last]) then Offset(blocks, last) else o + max)
    ensures Encrypted(blocks[last]) ==> 0 <= Offset(blocks, last) - o && Wrap(Offset(blocks, last) - o) == Offset(blocks, last) - o
  {
    hide Wrap, First;
    OffsetGrows(blocks, first + 1, last + 1);
    OffsetGrows(blocks, last + 1, |blocks|);
    OffsetNext(blocks, last);
    WrapAdd(Offset(blocks, last) - o, blocks[last].size);
  }

  /** Behind the last block the window ends. */
  lemma AllStretched(blocks: seq<Block>, o: nat, max: nat)
    ensures End(blocks, |blocks|, o, max) == Total(blocks) && LastIn(blocks, |blocks|, o, max) == |blocks|
    ensures o <= Total(blocks) < U32_RANGE ==> Wrap(Total(blocks) - o) == Total(blocks) - o
  {
  }

  lemma CutsExactlyInFirst(blocks: seq<Block>, o: nat)
    requires o <= Total(blocks)
    ensures var i := First(blocks, o, 0);
            BetweenBlocks(blocks, o) <==> i == |blocks| || Offset(blocks, i) == o || !Encrypted(blocks[i])
  {
    var i := First(blocks, o, 0);
    FirstIsReached(blocks, o);
    forall j | 0 <= j < |blocks| && j != i
      ensures !(Offset(blocks, j) < o < Offset(blocks, j + 1))
    {
      if j < i {
        OffsetGrows(blocks, j + 1, i);
      } else {
        OffsetGrows(blocks, i + 1, j);
      }
    }
  }

  /** A window that has been read and is decrypted up to offset `x` of the payload. */
  function Text(clear: seq<byte>, payload: seq<byte>, o: nat, x: nat, e: nat): seq<byte>
    requires o <= x <= e <= |payload| && x <= |clear|
  {
    clear[o..x] + payload[x..e]
  }

  function Max(a: nat, b: nat): nat {
    if a < b then b else a
  }

  lemma SliceOfSlice(s: seq<byte>, b: nat, x: nat, y: nat, c: nat)
    requires b <= x <= y <= c <= |s|
    ensures s[b..c][x - b..y - b] == s[x..y]
  {
    assert forall k :: 0 <= k < y - x ==> s[b..c][x - b..y - b][k] == s[x..y][k];
  }

  /** A plain block, or the part of it in the window, is clear text as it stands. */
  lemma TextOverPlain(blocks: seq<Block>, payload: seq<byte>, decrypt: Cipher, clear: seq<byte>, i: nat, o: nat, x: nat, y: nat, e: nat)
    requires KeepsSize(decrypt) && Total(blocks) <= |payload| && Clear(blocks, payload, decrypt, |blocks|) == Some(clear)
    requires i < |blocks| && !Encrypted(blocks[i]) && Offset(blocks, i) <= x <= y <= Offset(blocks, i + 1) <= |clear|
    requires o <= x && y <= e <= |payload|
    ensures Text(clear, payload, o, x, e) == Text(clear, payload, o, y, e)
  {
    hide Clear, KeepsSize;
    ClearAt(blocks, payload, decrypt, |blocks|, i);
    SliceOfSlice(payload, Offset(blocks, i), x, y, Offset(blocks, i + 1));
    SliceOfSlice(clear, Offset(blocks, i), x, y, Offset(blocks, i + 1));
    assert clear[o..y] == clear[o..x] + clear[x..y];
    assert payload[x..e] == payload[x..y] + payload[y..e];
  }

  /** Decrypting an encrypted block of the window where it lies turns it into clear text. */
  lemma TextOverEncrypted(blocks: seq<Block>, payload: seq<byte>, decrypt: Cipher, clear: seq<byte>, i: nat, o: nat, e: nat)
    requires KeepsSize(decrypt) && Total(blocks) <= |payload| && Clear(blocks, payload, decrypt, |blocks|) == Some(clear)
    requires i < |blocks| && Encrypted(blocks[i]) && o <= Offset(blocks, i) && Offset(blocks, i + 1) <= e <= |payload|
    requires Offset(blocks, i + 1) <= |clear|
    ensures var text := Text(clear, payload, o, Offset(blocks, i), e);
            var raw := text[Offset(blocks, i) - o..Offset(blocks, i + 1) - o];
            && raw == Raw(blocks, payload, i) && decrypt(raw).Some?
            && |decrypt(raw).value| == blocks[i].size
            && Patch(text, Offset(blocks, i) - o, decrypt(raw).value) == Text(clear, payload, o, Offset(blocks, i + 1), e)
  {
    hide Clear, KeepsSize, Patch, Text;
    ClearAt(blocks, payload, decrypt, |blocks|, i);
    TextOverNext(clear, payload, o, Offset(blocks, i), Offset(blocks, i + 1), e);
  }

  /** The window's next bytes are still those of the payload, and become clear text when they are replaced by it. */
  lemma TextOverNext(clear: seq<byte>, payload: seq<byte>, o: nat, b: nat, c: nat, e: nat)
    requires o <= b <= c <= e <= |payload| && c <= |clear|
    ensures var text := Text(clear, payload, o, b, e);
            text[b - o..c - o] == payload[b..c] && Patch(text, b - o, clear[b..c]) == Text(clear, payload, o, c, e)
  {
    var text := Text(clear, payload, o, b, e);
    assert text[..b - o] == clear[o..b] && text[b - o..] == payload[b..e];
    SliceOfSlice(text, b - o, b - o, c - o, e - o);
    SliceOfSlice(payload, b, b, c, e);
    assert text[c - o..] == payload[c..e];
    assert clear[o..c] == clear[o..b] + clear[b..c];
  }

  /** The last part of func_0000306c: the encrypted blocks from `first` to `last` are decrypted where they lie in the buffer. */
  method DecryptWindow(blocks: seq<Block>, ghost payload: seq<byte>, decrypt: Cipher, buffer: array<byte>,
                       o: nat, excess: nat, first: nat, last: nat) returns (ok: bool)
    requires KeepsSize(decrypt) && Total(blocks) < U32_RANGE && Total(blocks) <= |payload|
    requires first <= last <= |blocks| && Offset(blocks, first) <= o && Offset(blocks, last) <= o + excess <= Total(blocks)
    requires Offset(blocks, first) == o || (first < |blocks| && !Encrypted(blocks[first]))
    requires first < last ==> o <= Offset(blocks, first + 1)
    requires Offset(blocks, last) < o + excess ==>
              last < |blocks| && !Encrypted(blocks[last]) && o + excess <= Offset(blocks, last + 1)
    requires excess <= buffer.Length && buffer[..excess] == payload[o..o + excess]
    modifies buffer
    ensures ok <==> forall j :: first <= j < last ==> Decrypts(blocks, payload, decrypt, j)
    ensures ok ==> o + excess <= |SureText(blocks, payload, decrypt)| && buffer[..excess] == SureText(blocks, payload, decrypt)[o..o + excess]
  {
    hide Text, Clear, Raw, Wrap, Holds, Offset, Decrypts, SureText, Sure;
    ghost var e, clear := o + excess, SureText(blocks, payload, decrypt);
    SureTextIs(blocks, payload, decrypt);
    WindowStarts(blocks, payload, Sure(decrypt), clear, buffer, o, e);
    var block := first;
    var region := Wrap(Offset(blocks, first) - o);
    while block < last
      invariant first <= block <= last && region == Wrap(Offset(blocks, block) - o)
      invariant first < block ==> o <= Offset(blocks, block)
      invariant forall j :: first <= j < block ==> Decrypts(blocks, payload, decrypt, j)
      invariant Holds(buffer, clear, payload, o, Max(o, Offset(blocks, block)), e)
    {
      OffsetGrows(blocks, first + 1, block + 1);
      OffsetGrows(blocks, block + 1, last);
      OffsetNext(blocks, block);
      WrapAdd(Offset(blocks, block) - o, blocks[block].size);
      ok := DecryptNext(blocks, payload, decrypt, buffer, o, e, block, region);
      if !ok { return; }
      region := Wrap(region + blocks[block].size);
      block := block + 1;
    }
    ok := true;
    WindowFinished(blocks, payload, Sure(decrypt), clear, buffer, last, o, e);
  }

  ghost predicate Holds(buffer: array<byte>, clear: seq<byte>, payload: seq<byte>, o: nat, x: nat, e: nat)
    reads buffer
  {
    hide Text, Clear, Raw, KeepsSize;
    o <= x <= e <= |payload| && e <= |clear| && e - o <= buffer.Length && buffer[..e - o] == Text(clear, payload, o, x, e)
  }

  /** The buffer `was`, with encrypted block `i` decrypted where it lies in the window. */
  lemma TextDecrypted(blocks: seq<Block>, payload: seq<byte>, decrypt: Cipher, clear: seq<byte>, i: nat, o: nat, e: nat,
                      was: seq<byte>, region: nat)
    requires KeepsSize(decrypt) && Total(blocks) <= |payload| && Clear(blocks, payload, decrypt, |blocks|) == Some(clear)
    requires i < |blocks| && Encrypted(blocks[i])
    requires o <= Offset(blocks, i) && Offset(blocks, i + 1) <= e <= |clear| && e <= |payload| && e - o <= |was|
    requires region == Offset(blocks, i) - o && was[..e - o] == Text(clear, payload, o, Offset(blocks, i), e)
    ensures Offset(blocks, i + 1) - o == region + blocks[i].size <= e - o
    ensures var plain := decrypt(was[region..region + blocks[i].size]);
            && was[region..region + blocks[i].size] == Raw(blocks, payload, i)
            && plain.Some? && |plain.value| == blocks[i].size
            && Patch(was, region, plain.value)[..e - o] == Text(clear, payload, o, Offset(blocks, i + 1), e)
  {
    hide Text, Clear, Raw, KeepsSize;
    TextOverEncrypted(blocks, payload, decrypt, clear, i, o, e);
    SliceOfSlice(was, 0, region, region + blocks[i].size, e - o);
    assert was[0..e - o] == was[..e - o];
    PatchFront(was, region, decrypt(was[region..region + blocks[i].size]).value, e - o);
  }

  lemma PatchFront(was: seq<byte>, at: nat, bytes: seq<byte>, n: nat)
    requires at + |bytes| <= n <= |was|
    ensures Patch(was, at, bytes)[..n] == Patch(was[..n], at, bytes)
  {
  }

  method DecryptNext(blocks: seq<Block>, ghost payload: seq<byte>, decrypt: Cipher, buffer: array<byte>,
                     o: nat, ghost e: nat, block: nat, region: nat) returns (ok: bool)
    requires KeepsSize(decrypt) && Total(blocks) <= |payload| && block < |blocks|
    requires o <= Offset(blocks, block + 1) <= e <= Total(blocks) && e - o <= buffer.Length
    requires Encrypted(blocks[block]) ==> o <= Offset(blocks, block) && region == Offset(blocks, block) - o
    requires Holds(buffer, SureText(blocks, payload, decrypt), payload, o, Max(o, Offset(blocks, block)), e)
    modifies buffer
    ensures ok <==> Decrypts(blocks, payload, decrypt, block)
    ensures ok ==> Holds(buffer, SureText(blocks, payload, decrypt), payload, o, Max(o, Offset(blocks, block + 1)), e)
  {
    hide Text, Clear, SureText, Sure;
    ghost var clear := SureText(blocks, payload, decrypt);
    SureTextIs(blocks, payload, decrypt);
    ok := true;
    if Encrypted(blocks[block]) {
      ghost var was := buffer[..];
      assert buffer[..e - o] == was[..e - o];
      TextDecrypted(blocks, payload, Sure(decrypt), clear, block, o, e, was, region);
      SureOf(decrypt, Raw(blocks, payload, block));
      ok := DecryptAt(buffer, region, blocks[block].size, decrypt);
      assert buffer[..e - o] == buffer[..][..e - o];
    } else {
      TextOverPlain(blocks, payload, Sure(decrypt), clear, block, o, Max(o, Offset(blocks, block)), Offset(blocks, block + 1), e);
    }
  }

  lemma WindowStarts(blocks: seq<Block>, payload: seq<byte>, decrypt: Cipher, clear: seq<byte>, buffer: array<byte>, o: nat, e: nat)
    requires KeepsSize(decrypt) && Total(blocks) <= |payload| && Clear(blocks, payload, decrypt, |blocks|) == Some(clear)
    requires o <= e <= Total(blocks) && e - o <= buffer.Length && buffer[..e - o] == payload[o..e]
    ensures Holds(buffer, clear, payload, o, o, e)
  {
    ClearLength(blocks, payload, decrypt, |blocks|);
  }

  lemma WindowFinished(blocks: seq<Block>, payload: seq<byte>, decrypt: Cipher, clear: seq<byte>, buffer: array<byte>, last: nat, o: nat, e: nat)
    requires KeepsSize(decrypt) && Total(blocks) <= |payload| && Clear(blocks, payload, decrypt, |blocks|) == Some(clear)
    requires last <= |blocks| && o <= e <= Total(blocks) && Offset(blocks, last) <= e
    requires Offset(blocks, last) < e ==> last < |blocks| && !Encrypted(blocks[last]) && e <= Offset(blocks, last + 1)
    requires Holds(buffer, clear, payload, o, Max(o, Offset(blocks, last)), e)
    ensures e <= |clear| && e - o <= buffer.Length && buffer[..e - o] == clear[o..e]
  {
    hide Clear, KeepsSize;
    if Max(o, Offset(blocks, last)) < e {
      OffsetGrows(blocks, last + 1, |blocks|);
      ClearLength(blocks, payload, decrypt, |blocks|);
      TextOverPlain(blocks, payload, decrypt, clear, last, o, Max(o, Offset(blocks, last)), e, e);
    }
  }

  /** The payload, made long enough for all its blocks; this is the payload itself unless the file has been cut short. */
  function Padded(payload: seq<byte>, n: nat): (p: seq<byte>)
    ensures n <= |p| && payload <= p
    ensures n <= |payload| ==> p == payload
  {
    if n <= |payload| then payload else payload + seq(n - |payload|, _ => 0)
  }

  /** func_0000306c: 0, or -201 if a block would be cut or cannot be decrypted, or -204 if the file is too short. */
  method ReadWindow(fd: Kelf, m: Modload, entry: Entry, blocks: seq<Block>, decrypt: Cipher) returns (result: int, ghost length: nat)
    requires KeepsSize(decrypt) && Total(blocks) < U32_RANGE && m.readBufferLength < U32_RANGE
    requires fd.at == m.readBufferOffset <= Total(blocks) && fd.at <= |fd.payload|
    requires m.readBufferLength <= entry.buffer.Length
    modifies fd`at, m`readBufferOffset, entry`length, entry.buffer
    ensures entry.length == old(m.readBufferOffset) && m.readBufferOffset == old(m.readBufferOffset) + length
    ensures result == 0 || result == -201 || result == -204
    ensures !BetweenBlocks(blocks, old(m.readBufferOffset)) ==> result == -201 && length == 0
    ensures BetweenBlocks(blocks, old(m.readBufferOffset)) ==>
              var end := WindowEnd(blocks, old(m.readBufferOffset), m.readBufferLength);
              && (result == -204 <==> |fd.payload| < end)
              && (result == -204 ==> length == 0)
              && (result != -204 ==>
                    && m.readBufferOffset == fd.at == end <= Total(blocks)
                    && length <= m.readBufferLength && BetweenBlocks(blocks, end))
    ensures BetweenBlocks(blocks, old(m.readBufferOffset)) && result != -204 ==>
              var payload := Padded(fd.payload, Total(blocks));
              && (result == 0 <==> WindowDecrypts(blocks, payload, decrypt, old(m.readBufferOffset), m.readBufferLength))
              && (result == 0 ==> m.readBufferOffset <= |SureText(blocks, payload, decrypt)| &&
                                  entry.buffer[..length] == SureText(blocks, payload, decrypt)[old(m.readBufferOffset)..m.readBufferOffset])
    ensures var all := Clear(blocks, Padded(fd.payload, Total(blocks)), decrypt, |blocks|);
            BetweenBlocks(blocks, old(m.readBufferOffset)) && all.Some? ==>
              result != -201 && m.readBufferOffset <= |all.value|
              && (result == 0 ==> entry.buffer[..length] == all.value[old(m.readBufferOffset)..m.readBufferOffset])
  {
    hide Clear, End, Wrap, Padded, WindowEnd, BetweenBlocks, Offset, Decrypts, SureText, Sure, LastIn, First;
    ghost var max := m.readBufferLength;
    ghost var payload := Padded(fd.payload, Total(blocks));
    ClearExactlyIfAllDecrypt(blocks, payload, decrypt, |blocks|);
    SureTextIs(blocks, payload, decrypt);
    entry.length := m.readBufferOffset;
    length := 0;
    var o := entry.length;
    var first, payloadLength := FindBlock(blocks, o);
    CutsExactlyInFirst(blocks, o);
    FirstIsReached(blocks, o);
    if Clear(blocks, payload, decrypt, |blocks|).Some? { ClearLength(blocks, payload, decrypt, |blocks|); }
    var start: int := payloadLength;
    WrapIsZero(start - o);
    if Wrap(start - o) != 0 && Encrypted(blocks[first]) {
      return -201, 0;
    }
    WindowFits(blocks, o, max);
    var last, excess := ExtendWindow(blocks, o, m.readBufferLength, first);
    var got := fd.Read(entry.buffer, excess);
    if got != excess {
      return -204, 0;
    }
    length := excess;
    m.readBufferOffset := m.readBufferOffset + excess;
    if first < last { OffsetGrows(blocks, first + 1, last); }
    assert payload[o..o + excess] == fd.payload[o..o + excess];
    var ok := DecryptWindow(blocks, payload, decrypt, entry.buffer, o, excess, first, last);
    result := if ok then 0 else -201;
  }

  /** The offset after `n` windows that were read without an error. */
  function After(blocks: seq<Block>, max: nat, n: nat): nat {
    if n == 0 then 0 else WindowEnd(blocks, After(blocks, max, n - 1), max)
  }

  /** An encrypted block that no window can hold. */
  predicate Long(b: Block, max: nat) {
    Encrypted(b) && 0 < b.size && max <= b.size
  }

  lemma {:induction false} AfterIsBetweenBlocks(blocks: seq<Block>, max: nat, n: nat)
    ensures After(blocks, max, n) <= Total(blocks) && BetweenBlocks(blocks, After(blocks, max, n))
    ensures n > 0 ==> After(blocks, max, n - 1) <= After(blocks, max, n) <= After(blocks, max, n - 1) + max
  {
    hide End;
    if n == 0 {
    } else {
      var o := After(blocks, max, n - 1);
      AfterIsBetweenBlocks(blocks, max, n - 1);
      WindowFits(blocks, o, max);
    }
  }

  lemma {:induction false} AfterAdvances(blocks: seq<Block>, max: nat, n: nat)
    requires 0 < max && forall j :: 0 <= j < |blocks| ==> !Long(blocks[j], max)
    ensures n <= After(blocks, max, n) || After(blocks, max, n) == Total(blocks)
  {
    hide WindowEnd;
    if n > 0 {
      var o := After(blocks, max, n - 1);
      AfterAdvances(blocks, max, n - 1);
      AfterIsBetweenBlocks(blocks, max, n - 1);
      AfterIsBetweenBlocks(blocks, max, n);
      if o < Total(blocks) {
        WindowIsEmptyExactlyAtLongBlock(blocks, o, max);
        FirstIsReached(blocks, o);
        assert !Long(blocks[First(blocks, o, 0)], max);
      }
    }
  }

  lemma {:induction false} AfterStopsAtLongBlock(blocks: seq<Block>, max: nat, n: nat, j: nat)
    requires j < |blocks| && Long(blocks[j], max)
    ensures After(blocks, max, n) <= Offset(blocks, j)
  {
    hide End, Offset, BetweenBlocks;
    OffsetNext(blocks, j);
    if n > 0 {
      var o := After(blocks, max, n - 1);
      AfterStopsAtLongBlock(blocks, max, n - 1, j);
      var i := First(blocks, o, 0);
      AfterIsBetweenBlocks(blocks, max, n - 1);
      FirstIsReached(blocks, o);
      if j < i { OffsetGrows(blocks, j + 1, i); }
      EndStopsAtLongBlock(blocks, i, o, max, j);
    }
  }

  /** Reading window after window delivers the whole payload exactly if every encrypted block is shorter than the read buffer. */
  lemma AllDeliveredExactlyWithoutLongBlock(blocks: seq<Block>, max: nat)
    requires 0 < max
    ensures (exists n :: After(blocks, max, n) == Total(blocks)) <==> forall j :: 0 <= j < |blocks| ==> !Long(blocks[j], max)
  {
    hide After;
    if j :| 0 <= j < |blocks| && Long(blocks[j], max) {
      OffsetGrows(blocks, j + 1, |blocks|);
      forall n
        ensures After(blocks, max, n) != Total(blocks)
      {
        AfterStopsAtLongBlock(blocks, max, n, j);
      }
    } else {
      AfterAdvances(blocks, max, Total(blocks));
      AfterIsBetweenBlocks(blocks, max, Total(blocks));
    }
  }

  /** `n` windows read one after the other from the start: they join to a beginning of the clear text. */
  method ReadWindows(fd: Kelf, m: Modload, entry: Entry, blocks: seq<Block>, decrypt: Cipher, n: nat) returns (result: int, out: seq<byte>)
    requires KeepsSize(decrypt) && Total(blocks) < U32_RANGE && m.readBufferLength < U32_RANGE
    requires fd.at == m.readBufferOffset == 0 && m.readBufferLength <= entry.buffer.Length
    modifies fd`at, m`readBufferOffset, entry`length, entry.buffer
    ensures var all := Clear(blocks, Padded(fd.payload, Total(blocks)), decrypt, |blocks|);
            all.Some? ==>
              && (result == 0 || result == -204) && (result == 0 <==> After(blocks, m.readBufferLength, n) <= |fd.payload|)
              && m.readBufferOffset <= |all.value| && out == all.value[..m.readBufferOffset]
    ensures result == 0 ==> m.readBufferOffset == After(blocks, m.readBufferLength, n)
  {
    hide Clear, End, Padded, BetweenBlocks, WindowEnd;
    ghost var all, max := Clear(blocks, Padded(fd.payload, Total(blocks)), decrypt, |blocks|), m.readBufferLength;
    result, out := 0, [];
    AfterIsBetweenBlocks(blocks, max, 0);
    var calls := 0;
    while calls < n
      invariant 0 <= calls <= n && result == 0
      invariant m.readBufferOffset == fd.at == After(blocks, max, calls) <= |fd.payload|
      invariant m.readBufferOffset <= Total(blocks) && BetweenBlocks(blocks, m.readBufferOffset)
      invariant all.Some? ==> m.readBufferOffset <= |all.value| && out == all.value[..m.readBufferOffset]
    {
      var before := m.readBufferOffset;
      ghost var length;
      result, length := ReadWindow(fd, m, entry, blocks, decrypt);
      if result != 0 {
        AfterGrows(blocks, max, calls + 1, n);
        return;
      }
      out := out + entry.buffer[..m.readBufferOffset - before];
      calls := calls + 1;
    }
  }

  lemma {:induction false} AfterGrows(blocks: seq<Block>, max: nat, k: nat, n: nat)
    requires k <= n
    ensures After(blocks, max, k) <= After(blocks, max, n)
  {
    if k < n {
      AfterGrows(blocks, max, k, n - 1);
      AfterIsBetweenBlocks(blocks, max, n);
    }
  }

  /**
   * Windows read until one is empty: the whole clear text is delivered exactly if every encrypted block is shorter than the
   * read buffer, and a beginning of it otherwise.
   */
  method ReadPayload(fd: Kelf, m: Modload, entry: Entry, blocks: seq<Block>, decrypt: Cipher) returns (result: int, out: seq<byte>)
    requires KeepsSize(decrypt) && Total(blocks) < U32_RANGE && 0 < m.readBufferLength < U32_RANGE
    requires fd.at == m.readBufferOffset == 0 && m.readBufferLength <= entry.buffer.Length && Total(blocks) <= |fd.payload|
    modifies fd`at, m`readBufferOffset, entry`length, entry.buffer
    ensures var all := Clear(blocks, fd.payload, decrypt, |blocks|);
            all.Some? ==>
              && result == 0 && m.readBufferOffset <= |all.value| && out == all.value[..m.readBufferOffset]
              && (out == all.value <==> forall j :: 0 <= j < |blocks| ==> !Long(blocks[j], m.readBufferLength))
  {
    hide Clear, End, BetweenBlocks, WindowEnd, After;
    ghost var all, max := Clear(blocks, fd.payload, decrypt, |blocks|), m.readBufferLength;
    result, out := 0, [];
    AfterStarts(blocks, max);
    AfterIsBetweenBlocks(blocks, max, 0);
    ghost var calls: nat := 0;
    var more := true;
    while more
      invariant result == 0 && m.readBufferOffset == fd.at == After(blocks, max, calls)
      invariant m.readBufferOffset <= Total(blocks) && BetweenBlocks(blocks, m.readBufferOffset)
      invariant all.Some? ==> m.readBufferOffset <= |all.value| && out == all.value[..m.readBufferOffset]
      invariant !more ==> WindowEnd(blocks, m.readBufferOffset, max) == m.readBufferOffset
      decreases more, Total(blocks) - m.readBufferOffset
    {
      var before := m.readBufferOffset;
      AfterNext(blocks, max, calls);
      WindowFits(blocks, before, max);
      ghost var length;
      result, length := ReadWindow(fd, m, entry, blocks, decrypt);
      if result != 0 { return; }
      out := out + entry.buffer[..m.readBufferOffset - before];
      more := m.readBufferOffset != before;
      calls := calls + 1;
    }
    if all.Some? {
      ClearLength(blocks, fd.payload, decrypt, |blocks|);
      StopsAtEndExactlyWithoutLongBlock(blocks, max, calls);
    }
  }

  lemma AfterStarts(blocks: seq<Block>, max: nat)
    ensures After(blocks, max, 0) == 0
  {
  }

  lemma AfterNext(blocks: seq<Block>, max: nat, n: nat)
    ensures After(blocks, max, n + 1) == WindowEnd(blocks, After(blocks, max, n), max)
  {
  }

  /** Where a window is empty, everything has been delivered exactly if there is no long block. */
  lemma StopsAtEndExactlyWithoutLongBlock(blocks: seq<Block>, max: nat, n: nat)
    requires 0 < max && WindowEnd(blocks, After(blocks, max, n), max) == After(blocks, max, n)
    ensures After(blocks, max, n) == Total(blocks) <==> forall j :: 0 <= j < |blocks| ==> !Long(blocks[j], max)
  {
    hide WindowEnd, After, BetweenBlocks;
    var o := After(blocks, max, n);
    AfterIsBetweenBlocks(blocks, max, n);
    if o < Total(blocks) {
      WindowIsEmptyExactlyAtLongBlock(blocks, o, max);
      FirstIsReached(blocks, o);
      assert Long(blocks[First(blocks, o, 0)], max);
    } else {
      forall j | 0 <= j < |blocks|
        ensures !Long(blocks[j], max)
      {
        if Long(blocks[j], max) {
          AfterStopsAtLongBlock(blocks, max, n, j);
          OffsetNext(blocks, j);
          OffsetGrows(blocks, j + 1, |blocks|);
        }
      }
    }
  }
}
