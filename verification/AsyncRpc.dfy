/**
 * The asynchronous card requests of mctools_rpc.c. One binary semaphore guards the transmit buffer and the IOP buffer:
 * a request takes it, and the end function of the request gives it back. When that happens is up to the IOP.
 */
module AsyncRpc {
  import opened Constants
  import opened Arithmetic
  import opened Bytes
  import opened CardDevice
  import opened BlockIO

  /** What the IOP is doing: nothing, filling `dest` with a cluster, or writing the IOP buffer to a block. */
  datatype Request = Nothing | Reading(cluster: nat, size: nat, dest: array<byte>) | Writing(block: nat)

  /** What the transmit buffer holds: the fields of MCTools_ReadWriteRPCData that a request fills, or the data of another call. */
  datatype Packet =
    | ClusterPacket(offset: nat, pageSize: nat, blockSize: nat, eeBuffer: array<byte>)
    | BlockPacket(offset: nat, pageSize: nat, blockSize: nat)
    | OtherPacket

  function Uses(r: Request): set<object> {
    if r.Reading? then {r.dest} else {}
  }

  /** Some error code of the device or of the transport, or 0. */
  method SomeResult() returns (r: int)
    ensures r <= 0
  {
    var code: int := *;
    r := if code < 0 then code else 0;
  }

  /** Memory that is being written by someone else, or has never been written, holds anything. */
  method Scribble(a: array<byte>)
    modifies a
  {
    for i := 0 to a.Length {
      a[i] := *;
    }
  }

  /** A block write that breaks off, at the erase or at some page: only that block has changed. */
  method BreakOff(card: Card, block: nat)
    requires card.Valid() && Times(block, card.pagesPerBlock) + card.pagesPerBlock <= |card.flash|
    modifies card
    ensures card.Valid() && |card.flash| == |old(card.flash)|
    ensures forall p :: 0 <= p < |card.flash| && !(Times(block, card.pagesPerBlock) <= p < Times(block, card.pagesPerBlock) + card.pagesPerBlock)
              ==> card.flash[p] == old(card.flash)[p]
  {
    var erases: bool := *;
    if erases {
      var first := Times(block, card.pagesPerBlock);
      card.McEraseBlock2(block);
      for i := 0 to card.pagesPerBlock
        invariant card.Valid() && |card.flash| == |old(card.flash)|
        invariant forall p :: first + i <= p < first + card.pagesPerBlock ==> card.flash[p] == Erased(card.pageLen)
        invariant forall p :: 0 <= p < |card.flash| && !(first <= p < first + card.pagesPerBlock) ==> card.flash[p] == old(card.flash)[p]
      {
        var fails: bool := *;
        if fails { break; }
        var page := new byte[card.pageLen];
        card.McWritePage(first + i, page[..]);
      }
    }
  }

  class McTools {
    const card: Card
    var sema: nat
    var request: Request
    var transmitBuffer: Packet
    var iopBuffer: seq<byte>
    var received: int
    /** The IOP buffer was given up while a request was using it. */
    ghost var disturbed: bool
    /** How many requests have failed, be it that they could not be sent or that the card could not serve them. */
    ghost var faults: nat

    ghost predicate Fits(r: Request)
      reads this, card
    {
      match r
      case Nothing => true
      case Reading(cluster, size, dest) =>
        Times(cluster, size) + size <= |card.flash| && dest.Length == Times(size, card.pageLen)
      case Writing(block) =>
        && Times(block, card.pagesPerBlock) + card.pagesPerBlock <= |card.flash|
        && (!disturbed ==> BlockBytes() <= |iopBuffer|)
    }

    function PacketOf(r: Request): Packet {
      match r
      case Nothing => OtherPacket
      case Reading(cluster, size, dest) => ClusterPacket(cluster, card.pageLen, size, dest)
      case Writing(block) => BlockPacket(block, card.pageLen, card.pagesPerBlock)
    }

    /**
     * The semaphore's count and the outstanding requests are one together, and the transmit buffer holds the outstanding
     * request until it is served.
     */
    ghost predicate Valid()
      reads this, card
    {
      && card.Valid() && sema + (if request == Nothing then 0 else 1) == 1 && Fits(request) && received <= 0
      && (request != Nothing ==> transmitBuffer == PacketOf(request))
    }

    function BlockBytes(): nat {
      Times(card.pagesPerBlock, card.pageLen)
    }

    /** What serving `r` has done to the card and to the buffer it was for, once its result is in. */
    ghost predicate Served(r: Request, before: seq<Page>, sent: seq<byte>)
      reads this, card, Uses(r)
    {
      match r
      case Nothing => card.flash == before
      case Reading(cluster, size, dest) =>
        && card.flash == before
        && (received == 0 ==> Times(cluster, size) + size <= |before| && dest[..] == Flat(Group(before, size, cluster)))
      case Writing(block) =>
        && |card.flash| == |before|
        && Times(block, card.pagesPerBlock) + card.pagesPerBlock <= |before|
        && (forall p :: 0 <= p < |before| && !(Times(block, card.pagesPerBlock) <= p < Times(block, card.pagesPerBlock) + card.pagesPerBlock)
              ==> card.flash[p] == before[p])
        && (received == 0 && !disturbed && BlockBytes() <= |sent| ==>
              BlockWritten(before, card.flash, card.pageLen, card.pagesPerBlock, block, sent[..BlockBytes()]))
    }

    /** InitMCTOOLS: the semaphore is created with a count of one. */
    constructor (card: Card)
      requires card.Valid()
      ensures Valid() && this.card == card && request == Nothing && !disturbed && faults == 0 && received == 0 && |iopBuffer| == 8192
    {
      this.card := card;
      sema, request, received, disturbed, faults := 1, Nothing, 0, false, 0;
      iopBuffer, transmitBuffer := seq(8192, _ => 0), OtherPacket;
    }

    /** The IOP does what the transmit buffer says, and the request's end function signals the semaphore. */
    method Complete()
      requires Valid() && request != Nothing
      modifies this`sema, this`request, this`received, this`iopBuffer, this`faults, card, Uses(request)
      ensures faults == old(faults) + if received < 0 then 1 else 0
      ensures Valid() && request == Nothing && |iopBuffer| == |old(iopBuffer)|
      ensures Served(old(request), old(card.flash), old(iopBuffer))
    {
      received := SomeResult();
      faults := faults + if received < 0 then 1 else 0;
      match transmitBuffer {
        case ClusterPacket(cluster, _, size, dest) =>
          if received == 0 {
            var data := ReadClusterRaw(card, size, cluster);
            CopyOut(data, dest, size, cluster);
            iopBuffer := if |data| <= |iopBuffer| then data + iopBuffer[|data|..] else iopBuffer;
          } else {
            Scribble(dest);
          }
        case BlockPacket(block, _, _) =>
          if received == 0 && BlockBytes() <= |iopBuffer| {
            WriteBlock(card, block, iopBuffer[..BlockBytes()]);
          } else {
            BreakOff(card, block);
          }
        case OtherPacket =>
      }
      sema, request := sema + 1, Nothing;
    }

    method CopyOut(data: seq<byte>, dest: array<byte>, size: nat, cluster: nat)
      requires card.Valid() && Times(cluster, size) + size <= |card.flash| && dest.Length == Times(size, card.pageLen)
      requires data == Flat(Group(card.flash, size, cluster))
      modifies dest
      ensures dest[..] == data
    {
      FlatLen(Group(card.flash, size, cluster), card.pageLen);
      forall i | 0 <= i < dest.Length {
        dest[i] := data[i];
      }
    }

    method WaitSema()
      requires Valid()
      modifies this`sema, this`request, this`received, this`iopBuffer, this`faults, card, Uses(request)
      ensures faults == old(faults) + if old(request) != Nothing && received < 0 then 1 else 0
      ensures card.Valid() && sema == 0 && request == Nothing && |iopBuffer| == |old(iopBuffer)|
      ensures Served(old(request), old(card.flash), old(iopBuffer))
      ensures old(request) == Nothing ==> received == old(received) && iopBuffer == old(iopBuffer)
      ensures received <= 0
    {
      if sema == 0 {
        Complete();
      }
      sema := sema - 1;
    }

    /** The request may be served while the EE does something else. */
    method Elapse(now: bool)
      requires Valid()
      modifies this`sema, this`request, this`received, this`iopBuffer, this`faults, card, Uses(request)
      ensures faults == old(faults) + if now && old(request) != Nothing && received < 0 then 1 else 0
      ensures Valid() && |iopBuffer| == |old(iopBuffer)|
      ensures request == (if now then Nothing else old(request))
      ensures now ==> Served(old(request), old(card.flash), old(iopBuffer))
      ensures !now || old(request) == Nothing ==> received == old(received) && iopBuffer == old(iopBuffer) && card.flash == old(card.flash)
      ensures !now ==> forall a: array<byte> :: a in Uses(old(request)) ==> a[..] == old(a[..])
    {
      if now && request != Nothing {
        Complete();
      }
    }

    /** Mode 1 asks whether a request is outstanding; any other mode waits until none is. */
    method MCToolsSync(mode: int) returns (result: int)
      requires Valid()
      modifies this`sema, this`request, this`received, this`iopBuffer, this`faults, card, Uses(request)
      ensures Valid() && |iopBuffer| == |old(iopBuffer)|
      ensures mode == 1 ==> result == (if request == Nothing then 0 else 1) && request == old(request) && card.flash == old(card.flash)
                            && received == old(received) && iopBuffer == old(iopBuffer)
      ensures mode == 1 ==> forall a: array<byte> :: a in Uses(old(request)) ==> a[..] == old(a[..])
      ensures mode != 1 ==> result == 0 && request == Nothing && Served(old(request), old(card.flash), old(iopBuffer))
      ensures faults == old(faults) + if mode != 1 && old(request) != Nothing && received < 0 then 1 else 0
      ensures old(request) == Nothing ==> received == old(received)
    {
      if mode == 1 {
        result := if sema > 0 then 0 else 1;
      } else {
        WaitSema();
        sema := sema + 1;
        result := 0;
      }
    }

    method CheckIOPBufferSize(size: nat) returns (result: int)
      requires Valid()
      modifies this`iopBuffer, this`disturbed
      ensures Valid()
      ensures disturbed == (old(disturbed) || (request != Nothing && |old(iopBuffer)| < size))
      ensures result >= 0 ==> size <= |iopBuffer|
      ensures size <= |old(iopBuffer)| ==> result == 0 && iopBuffer == old(iopBuffer)
      ensures |old(iopBuffer)| < size ==> (result == size && |iopBuffer| == size) || (result == -12 && iopBuffer == [])
    {
      result := 0;
      if |iopBuffer| < size {
        disturbed := disturbed || request != Nothing;
        var full: bool := *;
        iopBuffer := if full then [] else seq(size, _ => 0);
        result := if full then -ENOMEM else size;
      }
    }

    method MCToolsReadCluster(cluster: nat, size: nat, buffer: array<byte>) returns (result: int)
      requires Valid() && Fits(Reading(cluster, size, buffer))
      modifies this, card, buffer, Uses(request)
      ensures Valid() && result <= 0
      ensures result == 0 ==> request == Reading(cluster, size, buffer) && transmitBuffer == ClusterPacket(cluster, card.pageLen, size, buffer)
      ensures result == 0 && (old(request).Reading? ==> old(request).dest != buffer) ==> Served(old(request), old(card.flash), old(iopBuffer))
      ensures old(request) == Nothing ==> faults == old(faults) + if result < 0 then 1 else 0
      ensures result != 0 && old(request) == Nothing ==> request == Nothing
      ensures old(request) == Nothing ==> card.flash == old(card.flash)
      ensures disturbed == (old(disturbed) || (old(request) != Nothing && |old(iopBuffer)| < Times(size, card.pageLen)))
    {
      result := CheckIOPBufferSize(Times(size, card.pageLen));
      if result >= 0 {
        WaitSema();
        transmitBuffer := ClusterPacket(cluster, card.pageLen, size, buffer);
        request := Reading(cluster, size, buffer);
        Scribble(buffer);
        result := SomeResult();
        if result < 0 {
          sema, request := sema + 1, Nothing;
        }
      }
      faults := faults + if result < 0 then 1 else 0;
    }

    method MCToolsWriteBlock(block: nat, buffer: array<byte>) returns (result: int)
      requires Valid() && Times(block, card.pagesPerBlock) + card.pagesPerBlock <= |card.flash| && buffer.Length == BlockBytes()
      modifies this, card, Uses(request)
      ensures Valid() && result <= 0
      ensures result == 0 ==> request == Writing(block) && transmitBuffer == BlockPacket(block, card.pageLen, card.pagesPerBlock)
      ensures result == 0 ==> BlockBytes() <= |iopBuffer|
      ensures result == 0 ==> Served(old(request), old(card.flash), old(iopBuffer))
      ensures old(request) == Nothing ==> faults == old(faults) + if result < 0 then 1 else 0
      ensures result == 0 && old(request) == Nothing ==> iopBuffer[..BlockBytes()] == buffer[..]
      ensures old(request) == Nothing ==> received == old(received)
      ensures result != 0 && old(request) == Nothing ==> request == Nothing
      ensures old(request) == Nothing ==> card.flash == old(card.flash)
      ensures disturbed == (old(disturbed) || (old(request) != Nothing && |old(iopBuffer)| < BlockBytes()))
    {
      hide Flat, Group;
      result := CheckIOPBufferSize(BlockBytes());
      if result >= 0 {
        WaitSema();
        iopBuffer := buffer[..] + iopBuffer[BlockBytes()..];
        transmitBuffer := BlockPacket(block, card.pageLen, card.pagesPerBlock);
        request := Writing(block);
        result := SomeResult();
        if result < 0 {
          sema, request := sema + 1, Nothing;
        }
      }
      faults := faults + if result < 0 then 1 else 0;
    }

    /** A call that waits for its own end. It does not take the semaphore, and is made with no request outstanding. */
    method MCToolsGetMCInfo() returns (result: int)
      requires Valid() && request == Nothing
      modifies this`transmitBuffer, this`received, this`faults
      ensures Valid() && result <= 0
      ensures faults == old(faults) + if result < 0 then 1 else 0
      ensures result == 0 ==> received == 0
    {
      transmitBuffer := OtherPacket;
      result := SomeResult();
      if result >= 0 {
        result := SomeResult();
        received := result;
      }
      faults := faults + if result < 0 then 1 else 0;
    }

    /** The same; its handler always answers 0. */
    method MCToolsFlushMCMANClusterCache() returns (result: int)
      requires Valid() && request == Nothing
      modifies this`transmitBuffer, this`received
      ensures Valid() && result <= 0
      ensures received == if result == 0 then 0 else old(received)
    {
      transmitBuffer := OtherPacket;
      result := SomeResult();
      if result >= 0 {
        received := 0;
        result := received;
      }
    }
  }
}
