/** packet_handler.c as it stands: one object with the receive variables and the transmit ring,
    proved against the machines of Receiver and Transmit. */
module PacketHandlers {
  import opened Words
  import opened Packets
  import opened Ring
  import opened Receiver
  import opened Transmit

  datatype RxFn = FnAA | Fn55 | FnType | FnSize | FnPayload | FnChecksum

  lemma {:induction false} TakeMore<T>(s: seq<T>, k: nat)
    requires k < |s|
    ensures s[..k + 1] == s[..k] + [s[k]]
  {
  }

  /** Bytes still to be read as payload: the counter is decremented before it is tested, so 0 stands for 256. */
  function Remaining(toRead: uint8): (n: nat)
    ensures 1 <= n <= 256
  {
    if toRead == 0 then 256 else toRead as int
  }

  lemma {:induction false} FrameLast(ring: seq<uint8>, p: Packet)
    ensures ring + [0xAA] + [0x55] + p + [Xor(p)] == ring + Frame(p)
  {
  }

  class PacketHandler {
    // installed operations: type and expected size
    var operations: OpTable

    // the receiver
    var rxFn: RxFn
    var rxOpType: uint8           // rx_current_op->type
    var rxOpSize: uint8           // rx_current_op->size
    var rxPacket: array?<uint8>   // rx_current_packet
    var rxChecksum: uint8
    var rxBuffer: array?<uint8>
    var rxEnd: nat                // rx_buffer_end, as an offset in rxBuffer
    var rxToRead: uint8

    // the transmit ring
    const txBuffer: array<uint8>
    var txStart: nat
    var txEnd: nat
    var txSize: nat

    ghost predicate Valid()
      reads this, rxBuffer
    {
      RxValid() && TxValid()
    }

    ghost predicate TxValid()
      reads this`txStart, this`txEnd, this`txSize
    {
      txBuffer.Length == SIZE_MAX && Indices(SIZE_MAX, txStart, txEnd, txSize)
    }

    ghost predicate RxValid()
      reads this`rxFn, this`rxOpSize, this`rxPacket, this`rxBuffer, this`rxEnd, this`rxToRead, this`rxChecksum
    {
      && (rxFn == FnType ==> rxChecksum == 0)
      && (rxBuffer != null <==> rxFn == FnPayload || rxFn == FnChecksum)
      && (rxBuffer != null ==> rxBuffer == rxPacket && rxBuffer != txBuffer)
      && (rxFn == FnPayload ==> rxEnd + Remaining(rxToRead) <= rxBuffer.Length)
      && (rxFn == FnChecksum ==> rxEnd <= rxBuffer.Length)
    }

    /** The receive variables as a state of the machine: only what is live in the current rxFn. */
    ghost function Rx(): Rx
      reads this`rxFn, this`rxOpType, this`rxOpSize, this`rxChecksum, this`rxBuffer, this`rxEnd, this`rxToRead, rxBuffer
      requires rxFn == FnPayload || rxFn == FnChecksum ==> rxBuffer != null && rxEnd <= rxBuffer.Length
    {
      match rxFn
      case FnAA => SeekAA
      case Fn55 => Seek55
      case FnType => SeekType
      case FnSize => SeekSize(rxOpType, rxOpSize, rxChecksum)
      case FnPayload => InPayload(rxOpType, rxChecksum, rxBuffer[..rxEnd], Remaining(rxToRead))
      case FnChecksum => SeekChecksum(rxOpType, rxChecksum, rxBuffer[..rxEnd])
    }

    /** The bytes waiting in the transmit ring, oldest first. */
    ghost function TxRing(): (s: seq<uint8>)
      reads this`txStart, this`txEnd, this`txSize, txBuffer
      requires TxValid()
      ensures |s| == txSize
    {
      Slots(txBuffer[..], txStart, txSize)
    }

    constructor ()
      ensures Valid() && fresh(txBuffer)
      ensures operations == map[] && Rx() == SeekAA && TxRing() == []
    {
      operations := map[];
      rxFn, rxOpType, rxOpSize, rxChecksum := FnAA, 0, 0, 0;
      rxPacket, rxBuffer, rxEnd, rxToRead := null, null, 0, 0;
      txBuffer := new uint8[SIZE_MAX];
      txStart, txEnd, txSize := 0, 0, 0;
    }

    method InstallPacket(t: uint8, size: uint8) returns (status: Status)
      requires Valid()
      modifies this`operations
      ensures Valid() && Rx() == old(Rx())
      ensures t >= TYPE_MAX ==> status == TypeOutOfBounds && operations == old(operations)
      ensures t < TYPE_MAX && t in old(operations) ==> status == InstallError && operations == old(operations)
      ensures t < TYPE_MAX && t !in old(operations) ==> status == Success && operations == old(operations)[t := size]
    {
      if t >= TYPE_MAX { return TypeOutOfBounds; }
      if t in operations { return InstallError; }
      operations := operations[t := size];
      return Success;
    }

    /** Removes an operation. A frame of the type that is already past its type byte stays in flight. */
    method UninstallPacket(t: uint8) returns (status: Status)
      requires Valid()
      modifies this`operations
      ensures Valid() && Rx() == old(Rx())
      ensures t >= TYPE_MAX ==> status == TypeOutOfBounds && operations == old(operations)
      ensures t < TYPE_MAX && t !in old(operations) ==> status == UninstallError && operations == old(operations)
      ensures t < TYPE_MAX && t in old(operations) ==> status == Success && operations == old(operations) - {t}
    {
      if t >= TYPE_MAX { return TypeOutOfBounds; }
      if t !in operations { return UninstallError; }
      operations := operations - {t};
      return Success;
    }

    /** A buffer that takes the packet announced by the size byte c, if the receiver accepts that size. The
        source does not check it: initialize_buffer_fn is told the size of the operation only. */
    predicate Takes(offered: array<uint8>, c: uint8)
      reads this`rxOpSize
    {
      offered != txBuffer && (rxOpSize == SIZE_ANY || rxOpSize == c ==> 2 + PayloadLength(c) <= offered.Length)
    }

    /** Feeds one byte. `offered` is the buffer that initialize_buffer_fn gives when it is asked at
        this byte (null for none); the completed packet is in rxPacket when SyncChecksum is returned. */
    method RxByte(c: uint8, offered: array?<uint8>) returns (status: Status)
      requires Valid()
      requires rxFn == FnSize && offered != null ==> Takes(offered, c)
      modifies this`rxFn, this`rxOpType, this`rxOpSize, this`rxPacket, this`rxChecksum, this`rxBuffer
      modifies this`rxEnd, this`rxToRead
      modifies if rxFn == FnSize && offered != null then {offered} else {}
      modifies if rxFn == FnPayload then {rxBuffer} else {}
      ensures Valid() && TxRing() == old(TxRing())
      ensures (Rx(), status) == Step(operations, old(Rx()), Input(c, offered != null))
      ensures status == SyncSize ==> rxPacket == offered
      ensures old(rxFn) != FnSize ==> rxPacket == old(rxPacket)
      ensures status == SyncChecksum ==>
        rxPacket != null && |old(Rx()).buf| <= rxPacket.Length && rxPacket[..|old(Rx()).buf|] == old(Rx()).buf
    {
      hide PacketHandler.TxValid;
      hide Xor2;
      match rxFn
      case FnAA => status := RxAA(c, offered != null);
      case Fn55 => status := Rx55(c, offered != null);
      case FnType => status := RxType(c, offered != null);
      case FnSize => status := RxSize(c, offered);
      case FnPayload => status := RxPayload(c, offered != null);
      case FnChecksum => status := RxSum(c, offered != null);
    }

    method RxAA(c: uint8, ghost room: bool) returns (status: Status)
      requires Valid() && rxFn == FnAA
      modifies this`rxFn, this`rxChecksum
      ensures Valid()
      ensures (Rx(), status) == Step(operations, SeekAA, Input(c, room))
    {
      rxChecksum := 0;
      if c == 0xAA {
        rxFn := Fn55;
        return SyncAA;
      }
      return Unsync;
    }

    method Rx55(c: uint8, ghost room: bool) returns (status: Status)
      requires Valid() && rxFn == Fn55
      modifies this`rxFn, this`rxChecksum
      ensures Valid()
      ensures (Rx(), status) == Step(operations, Seek55, Input(c, room))
    {
      if c == 0x55 {
        rxFn := FnType;
        rxChecksum := 0;
        return Sync55;
      }
      rxFn := FnAA;
      return Unsync;
    }

    method RxType(c: uint8, ghost room: bool) returns (status: Status)
      requires Valid() && rxFn == FnType
      modifies this`rxFn, this`rxChecksum, this`rxOpType, this`rxOpSize
      ensures Valid()
      ensures (Rx(), status) == Step(operations, SeekType, Input(c, room))
    {
      rxChecksum := Xor2(rxChecksum, c);
      XorZero(c);
      if c >= TYPE_MAX {
        rxFn := FnAA;
        return Unsync;
      }
      if c !in operations {
        rxFn := FnAA;
        return UnknownType;
      }
      rxOpType, rxOpSize := c, operations[c];
      rxFn := FnSize;
      return SyncType;
    }

    method RxSize(c: uint8, offered: array?<uint8>) returns (status: Status)
      requires Valid() && rxFn == FnSize
      requires offered != null ==> Takes(offered, c)
      modifies this`rxFn, this`rxPacket, this`rxChecksum, this`rxBuffer, this`rxEnd, this`rxToRead
      modifies if offered != null then {offered} else {}
      ensures Valid()
      ensures (Rx(), status) == Step(operations, old(Rx()), Input(c, offered != null))
      ensures status == SyncSize ==> rxPacket == offered
    {
      hide PacketHandler.TxValid;
      hide Xor2;
      if rxOpSize != SIZE_ANY && rxOpSize != c {
        rxFn := FnAA;
        return InvalidSize;
      }
      rxPacket := offered;
      if rxPacket == null {
        rxFn := FnAA;
        return RxBufferError;
      }
      rxChecksum := Xor2(rxChecksum, c);
      rxToRead := ((c as int + 254) % 256) as uint8;
      rxBuffer := rxPacket;
      rxBuffer[0] := rxOpType;
      rxBuffer[1] := rxOpSize;
      rxEnd := 2;
      rxFn := FnPayload;
      assert rxBuffer[..2] == [rxOpType, rxOpSize];
      return SyncSize;
    }

    method RxPayload(c: uint8, ghost room: bool) returns (status: Status)
      requires Valid() && rxFn == FnPayload
      modifies this`rxFn, this`rxChecksum, this`rxEnd, this`rxToRead, rxBuffer
      ensures Valid()
      ensures (Rx(), status) == Step(operations, old(Rx()), Input(c, room))
    {
      hide PacketHandler.TxValid;
      hide Xor2;
      ghost var before := Rx();
      rxChecksum := Xor2(rxChecksum, c);
      rxBuffer[rxEnd] := c;
      assert rxBuffer[..rxEnd + 1] == before.buf + [c];
      rxEnd := rxEnd + 1;
      rxToRead := if rxToRead == 0 then 255 else rxToRead - 1;
      if rxToRead == 0 {
        rxFn := FnChecksum;
        return SyncPayloadComplete;
      }
      return SyncPayload;
    }

    method RxSum(c: uint8, ghost room: bool) returns (status: Status)
      requires Valid() && rxFn == FnChecksum
      modifies this`rxFn, this`rxBuffer, this`rxEnd
      ensures Valid()
      ensures (Rx(), status) == Step(operations, old(Rx()), Input(c, room))
      ensures rxPacket != null && |old(Rx()).buf| <= rxPacket.Length && rxPacket[..|old(Rx()).buf|] == old(Rx()).buf
    {
      rxFn := FnAA;
      rxBuffer := null;
      rxEnd := 0;
      if c == rxChecksum {
        return SyncChecksum;
      }
      return ChecksumError;
    }

    method PutTxByte(c: uint8)
      requires TxValid()
      modifies this`txEnd, this`txSize, txBuffer
      ensures TxValid()
      ensures TxRing() == if |old(TxRing())| == SIZE_MAX then old(TxRing()) else old(TxRing()) + [c]
    {
      if txSize == SIZE_MAX { return; }
      PutAppends(txBuffer[..], txStart, txEnd, txSize, c);
      txBuffer[txEnd] := c;
      // BUFFER_PUT
      txEnd := txEnd + 1;
      if txEnd >= SIZE_MAX { txEnd := 0; }
      txSize := txSize + 1;
    }

    /** Takes the oldest byte of the ring; 0 when there is none. */
    method TxByte() returns (c: uint8)
      requires TxValid()
      modifies this`txStart, this`txSize
      ensures TxValid()
      ensures old(TxRing()) == [] ==> c == 0 && TxRing() == []
      ensures old(TxRing()) != [] ==> old(TxRing()) == [c] + TxRing()
    {
      if txSize == 0 { return 0; }
      GetRemoves(txBuffer[..], txStart, txEnd, txSize);
      c := txBuffer[txStart];
      // BUFFER_GET
      txStart := txStart + 1;
      if txStart >= SIZE_MAX { txStart := 0; }
      txSize := txSize - 1;
    }

    /** Queues a packet. `header` is the memory from the packet header on. */
    method SendPacket(header: seq<uint8>) returns (status: Status)
      requires TxValid() && |header| >= 2 && header[1] as int <= |header|
      modifies this`txEnd, this`txSize, txBuffer
      ensures TxValid()
      ensures var p := header[..header[1]];
              && TxRing() == Push(old(TxRing()), p)
              && status == (if Fits(old(TxRing()), p) then Success else TxBufferFull)
    {
      var txFree := SIZE_MAX - txSize;
      var realSize := header[1] as int + 3;
      if txFree < realSize { return TxBufferFull; }
      ghost var before, p := TxRing(), header[..header[1]];
      PutTxByte(0xAA);
      PutTxByte(0x55);
      ghost var start := TxRing();
      var checksum: uint8 := 0;
      var size := header[1];
      var k := 0;
      while size != 0
        invariant TxValid() && k + size as int == |p|
        invariant checksum == Xor(p[..k])
        invariant TxRing() == start + p[..k]
      {
        XorSnoc(p[..k], header[k]);
        TakeMore(p, k);
        checksum := Xor2(checksum, header[k]);
        PutTxByte(header[k]);
        ConcatAssoc(start, p[..k], [header[k]]);
        size := size - 1;
        k := k + 1;
      }
      assert p[..k] == p;
      PutTxByte(checksum);
      FrameLast(before, p);
      return Success;
    }
  }
}
