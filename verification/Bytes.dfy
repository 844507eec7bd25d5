/** Little-endian words and page-sized pieces of flat buffers. */
module Bytes {
  import opened Arithmetic

  type byte = x: int | 0 <= x < 256

  /** A flash page, or any other run of raw bytes. */
  type Page = seq<byte>

  const U32_RANGE := 0x1_0000_0000

  type u32 = x: int | 0 <= x < U32_RANGE

  function U16(b: seq<byte>, o: nat): (v: nat)
    requires o + 2 <= |b|
    ensures v < 0x1_0000
  {
    var b0: int, b1: int := b[o], b[o + 1];
    b0 + 256 * b1
  }

  function U32(b: seq<byte>, o: nat): u32
    requires o + 4 <= |b|
  {
    var b0: int, b1: int, b2: int, b3: int := b[o], b[o + 1], b[o + 2], b[o + 3];
    b0 + 256 * b1 + 65536 * b2 + 16777216 * b3
  }

  function OfU16(v: nat): (b: seq<byte>)
    requires v < 0x1_0000
    ensures |b| == 2 && U16(b, 0) == v
  {
    [v % 256, v / 256]
  }

  function OfU32(v: u32): (b: seq<byte>)
    ensures |b| == 4 && U32(b, 0) == v
  {
    [v % 256, v / 256 % 256, v / 65536 % 256, v / 16777216]
  }

  /** Words lie with their low byte first, in the order in which the card and the headers hold them. */
  lemma LowByteFirst(b0: byte, b1: byte, b2: byte, b3: byte)
    ensures U16([b0, b1], 0) == b0 as int + 0x100 * b1 as int && OfU16(b0 as int + 0x100 * b1 as int) == [b0, b1]
    ensures var v := b0 as int + 0x100 * b1 as int + 0x1_0000 * b2 as int + 0x100_0000 * b3 as int;
            U32([b0, b1, b2, b3], 0) == v && OfU32(v) == [b0, b1, b2, b3]
  {
    var c1: int, c2: int, c3: int := b1, b2, b3;
    var upper := c2 + 0x100 * c3;
    var v := b0 + 0x100 * (c1 + 0x100 * upper);
    assert v / 0x100 == c1 + 0x100 * upper && v / 0x1_0000 == upper && v / 0x100_0000 == c3;
  }

  /** A word depends on its own bytes alone. */
  lemma WordsAnywhere(b: seq<byte>, o: nat)
    ensures o + 2 <= |b| ==> U16(b, o) == U16(b[o..o + 2], 0)
    ensures o + 4 <= |b| ==> U32(b, o) == U32(b[o..o + 4], 0)
  {
  }

  /** memcpy of `src` into `b` at offset `o`. */
  function Patch(b: seq<byte>, o: nat, src: seq<byte>): (r: seq<byte>)
    requires o + |src| <= |b|
    ensures |r| == |b|
    ensures forall k :: 0 <= k < |b| ==> r[k] == if o <= k < o + |src| then src[k - o] else b[k]
  {
    b[..o] + src + b[o + |src|..]
  }

  /** The same on a buffer in memory. */
  method CopyIn(buffer: array<byte>, at: nat, src: seq<byte>)
    requires at + |src| <= buffer.Length
    modifies buffer
    ensures buffer[..] == Patch(old(buffer[..]), at, src)
  {
    forall i | 0 <= i < |src| {
      buffer[at + i] := src[i];
    }
  }

  /** The `k`-th page of a flat buffer. */
  function PageOf(b: seq<byte>, pageLen: nat, k: nat): (p: Page)
    requires Times(k, pageLen) + pageLen <= |b|
    ensures |p| == pageLen
  {
    b[Times(k, pageLen)..Times(k, pageLen) + pageLen]
  }

  /** Pages laid out one after the other. */
  function Flat(ps: seq<Page>): seq<byte> {
    if ps == [] then [] else Flat(ps[..|ps| - 1]) + ps[|ps| - 1]
  }

  lemma {:induction false} FlatAppend(a: seq<Page>, b: seq<Page>)
    ensures Flat(a + b) == Flat(a) + Flat(b)
  {
    if b == [] {
      assert a + b == a;
    } else {
      var n := |b| - 1;
      assert (a + b)[..|a + b| - 1] == a + b[..n];
      FlatAppend(a, b[..n]);
    }
  }

  ghost predicate AllLen(ps: seq<Page>, pageLen: nat) {
    forall k :: 0 <= k < |ps| ==> |ps[k]| == pageLen
  }

  lemma {:induction false} FlatLen(ps: seq<Page>, pageLen: nat)
    requires AllLen(ps, pageLen)
    ensures |Flat(ps)| == Times(|ps|, pageLen)
  {
    if ps != [] {
      FlatLen(ps[..|ps| - 1], pageLen);
    }
  }

  lemma {:induction false} FlatPage(ps: seq<Page>, pageLen: nat, k: nat)
    requires AllLen(ps, pageLen) && k < |ps|
    ensures |Flat(ps)| == Times(|ps|, pageLen)
    ensures HasPage(Flat(ps), pageLen, k, ps[k])
  {
    FlatLen(ps, pageLen);
    ItemFits(k, |ps|, pageLen);
    var n := |ps| - 1;
    FlatLen(ps[..n], pageLen);
    if k < n {
      FlatPage(ps[..n], pageLen, k);
      PageOfPrefix(Flat(ps), pageLen, k, Times(n, pageLen));
    }
  }

  lemma PageOfPrefix(b: seq<byte>, pageLen: nat, k: nat, n: nat)
    requires Times(k, pageLen) + pageLen <= n <= |b|
    ensures PageOf(b[..n], pageLen, k) == PageOf(b, pageLen, k)
  {
  }

  ghost predicate HasPage(b: seq<byte>, pageLen: nat, k: nat, p: Page) {
    Times(k, pageLen) + pageLen <= |b| && PageOf(b, pageLen, k) == p
  }

  /** A flat buffer is determined by its pages. */
  lemma {:induction false} FlatUnique(ps: seq<Page>, pageLen: nat, b: seq<byte>)
    requires AllLen(ps, pageLen) && |b| == Times(|ps|, pageLen)
    requires forall k :: 0 <= k < |ps| ==> HasPage(b, pageLen, k, ps[k])
    ensures Flat(ps) == b
  {
    if ps != [] {
      var n := |ps| - 1;
      var last := Times(n, pageLen);
      assert |b| == last + pageLen;
      var head := b[..last];
      forall k | 0 <= k < n
        ensures HasPage(head, pageLen, k, ps[..n][k])
      {
        ItemFits(k, n, pageLen);
        assert HasPage(b, pageLen, k, ps[k]);
        PageOfPrefix(b, pageLen, k, last);
      }
      FlatUnique(ps[..n], pageLen, head);
      assert HasPage(b, pageLen, n, ps[n]);
      assert b == head + b[last..];
    }
  }

  /** `b` with its `k`-th page replaced. */
  function SetPage(b: seq<byte>, pageLen: nat, k: nat, p: Page): (r: seq<byte>)
    requires |p| == pageLen && Times(k, pageLen) + pageLen <= |b|
    ensures |r| == |b|
  {
    Patch(b, Times(k, pageLen), p)
  }

  /** Overwriting one whole page of a buffer leaves its other pages alone. */
  lemma SetPageAt(b: seq<byte>, pageLen: nat, k: nat, p: Page, j: nat)
    requires |p| == pageLen && Times(k, pageLen) + pageLen <= |b| && Times(j, pageLen) + pageLen <= |b|
    ensures PageOf(SetPage(b, pageLen, k, p), pageLen, j) == if j == k then p else PageOf(b, pageLen, j)
  {
    if j < k {
      ItemFits(j, k, pageLen);
    } else if k < j {
      ItemFits(k, j, pageLen);
    }
  }

  /** Reading back a word after a store to a buffer. */
  lemma PatchWord(b: seq<byte>, o: nat, v: u32, q: nat)
    requires o + 4 <= |b| && q + 4 <= |b|
    requires q == o || q + 4 <= o || o + 4 <= q
    ensures U32(Patch(b, o, OfU32(v)), q) == if q == o then v else U32(b, q)
  {
    var w := OfU32(v);
    assert U32(w, 0) == v;
  }

  /** Overwriting a page of a flat buffer is updating that page. */
  lemma FlatSetPage(ps: seq<Page>, pageLen: nat, k: nat, p: Page)
    requires AllLen(ps, pageLen) && k < |ps| && |p| == pageLen
    ensures Times(k, pageLen) + pageLen <= |Flat(ps)|
    ensures SetPage(Flat(ps), pageLen, k, p) == Flat(ps[k := p])
  {
    FlatPage(ps, pageLen, k);
    var qs, b := ps[k := p], SetPage(Flat(ps), pageLen, k, p);
    forall j | 0 <= j < |qs|
      ensures HasPage(b, pageLen, j, qs[j])
    {
      FlatPage(ps, pageLen, j);
      SetPageAt(Flat(ps), pageLen, k, p, j);
    }
    FlatUnique(qs, pageLen, b);
  }

  lemma FlatInjective(ps: seq<Page>, qs: seq<Page>, pageLen: nat)
    requires AllLen(ps, pageLen) && AllLen(qs, pageLen) && |ps| == |qs|
    requires Flat(ps) == Flat(qs)
    ensures ps == qs
  {
    forall k | 0 <= k < |ps|
      ensures ps[k] == qs[k]
    {
      FlatPage(ps, pageLen, k);
      FlatPage(qs, pageLen, k);
    }
  }
}
