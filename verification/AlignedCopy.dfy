/**
 * Copying a buffer from the IOP into EE memory (EE_memcpy and MCTOOLS_RpcEndFunc): DMA carries only whole lines of 64
 * bytes, so the two ends travel in a side record and are copied in by the EE.
 */
module AlignedCopy {
  import opened Bytes

  const LINE := 64

  /** MCTools_AlignmentData. */
  datatype Alignment = Alignment(buffer1: seq<byte>, address1: nat, buffer2: seq<byte>, address2: nat)

  /** The lengths of the three pieces, as EE_memcpy works them out; the middle one is a signed number there. */
  function Lengths(dest: nat, size: nat): (int, int, int) {
    var head := if dest % LINE != 0 then (dest + LINE - 1) / LINE * LINE - dest else 0;
    var rest := size - head;
    var tail := rest % LINE;
    (head, rest - tail, tail)
  }

  /**
   * The pieces partition the destination, with whole aligned lines in the middle, exactly if the destination reaches its
   * first line boundary; otherwise more bytes are written than were asked for.
   */
  lemma PiecesPartitionExactlyFromFirstLine(dest: nat, size: nat)
    ensures var (head, middle, tail) := Lengths(dest, size);
            && (0 <= middle && head + middle + tail == size <==> head <= size)
            && 0 <= head < 64 && 0 <= tail < 64 && (dest + head) % 64 == 0 && middle % 64 == 0
            && (size < head ==> middle < 0 && size < head + tail)
  {
    var (head, middle, tail) := Lengths(dest, size);
    var line := dest / LINE;
    assert dest == line * LINE + dest % LINE;
    if dest % LINE != 0 {
      assert (dest + LINE - 1) / LINE == line + 1;
    }
  }

  method DMATransferDataToEE(src: seq<byte>, dest: nat, ee: array<byte>)
    requires dest % LINE == 0 && |src| % LINE == 0 && dest + |src| <= ee.Length
    modifies ee
    ensures ee[..] == Patch(old(ee[..]), dest, src)
  {
    CopyIn(ee, dest, src);
  }

  method EEMemcpy(src: seq<byte>, dest: nat, size: nat, ee: array<byte>) returns (alignment: Alignment)
    requires size <= |src| && dest + size <= ee.Length && Lengths(dest, size).0 <= size
    modifies ee
    ensures var (head, middle, tail) := Lengths(dest, size);
            && alignment.buffer1 == src[..head] && alignment.address1 == (if head > 0 then dest else 0)
            && alignment.buffer2 == src[size - tail..size] && alignment.address2 == (if tail > 0 then dest + size - tail else 0)
            && ee[..] == Patch(old(ee[..]), dest + head, src[head..head + middle])
  {
    PiecesPartitionExactlyFromFirstLine(dest, size);
    var finalDest := dest;
    var length := size;
    alignment := Alignment([], 0, [], 0);
    if dest % LINE != 0 {
      finalDest := (dest + LINE - 1) / LINE * LINE;
      var n := finalDest - dest;
      alignment := alignment.(buffer1 := src[..n], address1 := dest);
      length := length - n;
    }
    if length % LINE != 0 {
      var n := length % LINE;
      alignment := alignment.(buffer2 := src[size - n..size], address2 := dest + size - n);
      length := length - n;
    }
    var n1 := |alignment.buffer1|;
    DMATransferDataToEE(src[n1..n1 + length], finalDest, ee);
  }

  method RpcEndFunc(alignment: Alignment, ee: array<byte>)
    requires alignment.address1 + |alignment.buffer1| <= ee.Length && alignment.address2 + |alignment.buffer2| <= ee.Length
    modifies ee
    ensures ee[..] == Patch(Patch(old(ee[..]), alignment.address1, alignment.buffer1), alignment.address2, alignment.buffer2)
  {
    CopyIn(ee, alignment.address1, alignment.buffer1);
    CopyIn(ee, alignment.address2, alignment.buffer2);
  }

  /** Three pieces that follow one another, patched in one at a time, are one patch; an empty one may be put anywhere. */
  lemma PatchThree(was: seq<byte>, src: seq<byte>, dest: nat, head: nat, middle: nat, a1: nat, a2: nat)
    requires dest + |src| <= |was| && head + middle <= |src|
    requires head > 0 ==> a1 == dest
    requires a1 + head <= |was|
    requires head + middle < |src| ==> a2 == dest + head + middle
    requires a2 + (|src| - head - middle) <= |was|
    ensures Patch(Patch(Patch(was, dest + head, src[head..head + middle]), a1, src[..head]), a2, src[head + middle..]) == Patch(was, dest, src)
  {
  }

  /** Both halves together are memcpy: the destination holds the source, and nothing else has changed. */
  method Transfer(src: seq<byte>, dest: nat, size: nat, ee: array<byte>)
    requires size <= |src| && dest + size <= ee.Length && Lengths(dest, size).0 <= size
    modifies ee
    ensures ee[..] == Patch(old(ee[..]), dest, src[..size])
  {
    hide Patch;
    PiecesPartitionExactlyFromFirstLine(dest, size);
    var alignment := EEMemcpy(src, dest, size, ee);
    RpcEndFunc(alignment, ee);
    ghost var (head, middle, tail) := Lengths(dest, size);
    ghost var all := src[..size];
    assert all[head..head + middle] == src[head..head + middle] && all[..head] == src[..head] && all[size - tail..] == src[size - tail..size];
    PatchThree(old(ee[..]), all, dest, head, middle, alignment.address1, alignment.address2);
  }
}
