/** orazio_client.c as it stands: the host's object, proved against the host of Protocol. Where the source
    would wait for the serial line, the bytes that arrive are an argument. */
module Clients {
  import opened Words
  import opened Packets
  import opened Receiver
  import opened Delivery
  import opened Transmit
  import opened PacketHandlers
  import opened Messages
  import opened Firmware
  import opened Epochs
  import opened Protocol

  /** Some bytes read one after the other. */
  function ReadAll(h: Host, b: seq<uint8>): Host {
    if b == [] then h else ReadByte(ReadAll(h, b[..|b| - 1]), b[|b| - 1])
  }

  /** The packets that complete while some bytes are read. */
  function Received(h: Host, b: seq<uint8>): seq<Packet> { Run(TO_HOST, h.rx, Offered(b)).out }

  lemma {:induction false} ReceivedSnoc(h: Host, b: seq<uint8>, c: uint8)
    requires ReadAll(h, b).rx == Run(TO_HOST, h.rx, Offered(b)).rx
    ensures Received(h, b + [c]) == Received(h, b) + Delivered(TO_HOST, ReadAll(h, b).rx, Input(c, true))
    ensures Run(TO_HOST, h.rx, Offered(b + [c])).rx == Step(TO_HOST, ReadAll(h, b).rx, Input(c, true)).0
  {
    hide Step;
    hide Delivered;
    assert Offered(b + [c]) == Offered(b) + [Input(c, true)];
    RunConcat(TO_HOST, h.rx, Offered(b), [Input(c, true)]);
    RunLast(TO_HOST, ReadAll(h, b).rx, Input(c, true));
  }

  /** Reading bytes is running the receiver on them and copying what it delivers. */
  lemma {:induction false} ReadAllIs(h: Host, b: seq<uint8>)
    ensures ReadAll(h, b) == h.(rx := Run(TO_HOST, h.rx, Offered(b)).rx, store := Apply(h.store, Received(h, b)))
    decreases |b|
  {
    hide Step;
    hide Delivered;
    if b == [] {
      assert Apply(h.store, []) == h.store;
    } else {
      var n := |b| - 1;
      assert b == b[..n] + [b[n]];
      ReadAllIs(h, b[..n]);
      ReceivedSnoc(h, b[..n], b[n]);
      ApplyConcat(h.store, Received(h, b[..n]), Delivered(TO_HOST, ReadAll(h, b[..n]).rx, Input(b[n], true)));
    }
  }

  /** The variable of the response answers p. */
  predicate ResponseFor(s: Store, p: Packet)
    requires |p| >= 4
  {
    RESPONSE_KEY in s && Answers(s[RESPONSE_KEY], p)
  }

  /** The variables that the client looks into. */
  predicate StoreOk(s: Store) {
    && RESPONSE_KEY in s && |s[RESPONSE_KEY]| == 8 && s[RESPONSE_KEY][0] == RESPONSE
    && HasEpoch(s)
  }

  lemma {:induction false} ApplyKeepsStore(s: Store, rx: Rx, i: Input)
    requires StoreOk(s) && Sound(TO_HOST, rx)
    ensures StoreOk(Apply(s, Delivered(TO_HOST, rx, i)))
    ensures Delivered(TO_HOST, rx, i) != [] ==>
              rx.SeekChecksum? && rx.buf != [] && Apply(s, Delivered(TO_HOST, rx, i)) == s[KeyOf(rx.buf) := rx.buf]
  {
    if Delivered(TO_HOST, rx, i) != [] {
      assert Delivered(TO_HOST, rx, i) == [] + [rx.buf];
      ApplySnoc(s, [], rx.buf);
    }
  }

  /** What the client expects fits its buffer, and a complete packet tells its length. */
  lemma {:induction false} SizesFit(rx: Rx)
    requires Sound(TO_HOST, rx)
    ensures rx.SeekSize? ==> 4 <= rx.size as int <= SIZE_MAX
    ensures rx.SeekChecksum? ==> 4 <= |rx.buf| == rx.buf[1] as int
  {
  }

  /** A frame gets into flight at a size byte. */
  lemma {:induction false} IntoFlight(ops: OpTable, rx: Rx, i: Input)
    ensures var (next, status) := Step(ops, rx, i);
            next.InPayload? || next.SeekChecksum? ==> rx.InPayload? || (rx.SeekSize? && status == SyncSize)
  {
  }

  class OrazioClient {
    const handler: PacketHandler
    const packetBuffer: array<uint8>
    var globalSeq: Seq16
    var store: Store                      // response, end_epoch, and the other packet variables
    ghost var sends: nat
    ghost var sent: seq<Packet>

    ghost predicate Valid()
      reads this, handler, handler.rxBuffer
    {
      && handler.Valid() && handler.operations == TO_HOST && Sound(TO_HOST, handler.Rx())
      && packetBuffer.Length == SIZE_MAX && packetBuffer != handler.txBuffer
      && (handler.rxBuffer != null ==> handler.rxBuffer == packetBuffer)
      && StoreOk(store) && globalSeq == SendSeq(sends)
    }

    /** The abstract state. */
    ghost function State(): Host
      reads this, handler, handler.rxBuffer, handler.txBuffer
      requires Valid()
    {
      Host(handler.Rx(), store, sends, handler.TxRing(), sent)
    }

    /** A client with its operations installed and its variables set up; `others` are the variables that
        the source leaves as they are. */
    constructor (others: Store)
      ensures Valid() && fresh(handler) && fresh(handler.txBuffer) && fresh(packetBuffer)
      ensures State() == Host(SeekAA, store, 0, [], []) && store[RESPONSE_KEY][4] == TYPE_MAX && EpochSeq(store) == 0
    {
      handler := new PacketHandler();
      packetBuffer := new uint8[SIZE_MAX];
      globalSeq, sends, sent := 0, 0, [];
      store := others[RESPONSE_KEY := [RESPONSE, 8, 0, 0, TYPE_MAX, 0, 0, 0]][EPOCH_KEY := [END_EPOCH, 4, 0, 0]];
      new;
      InstallAll();
    }

    method InstallPacketOp(t: uint8, size: uint8)
      requires handler.Valid() && t < TYPE_MAX && t !in handler.operations && 4 <= size as int <= SIZE_MAX
      modifies handler`operations
      ensures handler.Valid() && handler.operations == old(handler.operations)[t := size]
    {
      hide PacketHandler.TxValid;
      hide PacketHandler.RxValid;
      var status := handler.InstallPacket(t, size);
      assert status == Success;
    }

    method InstallAll()
      requires handler.Valid() && handler.operations == map[]
      modifies handler`operations
      ensures handler.Valid() && handler.operations == TO_HOST
    {
      hide PacketHandler.Valid;
      InstallPacketOp(RESPONSE, 8);
      InstallPacketOp(MESSAGE, 84);
      InstallPacketOp(SYSTEM_PARAM, 24);
      InstallPacketOp(SYSTEM_STATUS, 27);
      InstallMore();
    }

    method InstallMore()
      requires handler.Valid()
      requires handler.operations == map[RESPONSE := 8, MESSAGE := 84, SYSTEM_PARAM := 24, SYSTEM_STATUS := 27]
      modifies handler`operations
      ensures handler.Valid() && handler.operations == TO_HOST
    {
      hide PacketHandler.Valid;
      InstallPacketOp(JOINT_STATUS, 16);
      InstallPacketOp(JOINT_PARAM, 25);
      InstallPacketOp(DRIVE_PARAM, 38);
      InstallPacketOp(DRIVE_STATUS, 41);
      InstallRest();
    }

    method InstallRest()
      requires handler.Valid()
      requires handler.operations == map[RESPONSE := 8, MESSAGE := 84, SYSTEM_PARAM := 24, SYSTEM_STATUS := 27,
                                         JOINT_STATUS := 16, JOINT_PARAM := 25, DRIVE_PARAM := 38, DRIVE_STATUS := 41]
      modifies handler`operations
      ensures handler.Valid() && handler.operations == TO_HOST
    {
      hide PacketHandler.Valid;
      InstallPacketOp(END_EPOCH, 4);
      InstallPacketOp(SONAR_STATUS, 20);
      InstallPacketOp(SONAR_PARAM, 12);
    }

    /** One byte from the line. */
    method ReadOne(c: uint8) returns (complete: bool)
      requires Valid()
      modifies this`store, handler, packetBuffer
      ensures Valid() && State() == ReadByte(old(State()), c)
      ensures complete <==> Delivered(TO_HOST, old(State()).rx, Input(c, true)) != []
    {
      hide StoreOk;
      hide Sound;
      hide Step;
      ghost var rx, i := handler.Rx(), Input(c, true);
      StepSound(TO_HOST, rx, i);
      SizesFit(rx);
      IntoFlight(TO_HOST, rx, i);
      ApplyKeepsStore(store, rx, i);
      DeliveryIsSyncChecksum(TO_HOST, rx, i);
      var status := handler.RxByte(c, packetBuffer);
      complete := status == SyncChecksum;
      if complete {
        // _copyToBuffer, _copyToIndexedBuffer
        var p := handler.rxPacket[..handler.rxPacket[1]];
        assert p == old(handler.Rx()).buf;
        store := store[KeyOf(p) := p];
      }
    }

    /** Reads until a packet is complete; false when the line has no more bytes, where the source waits. */
    method ReadPacket(line: seq<uint8>) returns (n: nat, complete: bool)
      requires Valid()
      modifies this`store, handler, packetBuffer
      ensures Valid() && n <= |line| && State() == ReadAll(old(State()), line[..n])
      ensures complete ==> n > 0 && |Received(old(State()), line[..n])| == 1
      ensures complete ==> Received(old(State()), line[..n - 1]) == []
      ensures !complete ==> n == |line| && Received(old(State()), line) == []
    {
      hide OrazioClient.Valid;
      hide ReadByte;
      hide Run;
      hide Delivered;
      ghost var h := State();
      n, complete := 0, false;
      NothingReceived(h);
      while !complete && n < |line|
        invariant n <= |line| && Valid() && State() == ReadAll(h, line[..n])
        invariant if complete then n > 0 && |Received(h, line[..n])| == 1 && Received(h, line[..n - 1]) == []
                  else Received(h, line[..n]) == []
      {
        ReadAllIs(h, line[..n]);
        ReceivedSnoc(h, line[..n], line[n]);
        TakeMore(line, n);
        ReadAllSnoc(h, line[..n], line[n]);
        AtMostOne(TO_HOST, State().rx, Input(line[n], true));
        complete := ReadOne(line[n]);
        n := n + 1;
      }
      assert !complete ==> line[..n] == line;
    }

    /** _flushBuffer: the ring goes to the line. */
    method FlushBuffer() returns (written: seq<uint8>)
      requires Valid()
      modifies handler`txStart, handler`txSize
      ensures Valid() && written == old(State()).ring && State() == old(State()).(ring := [])
    {
      hide StoreOk;
      hide Sound;
      hide PacketHandler.RxValid;
      written := DrainRing();
    }

    method DrainRing() returns (written: seq<uint8>)
      requires handler.TxValid()
      modifies handler`txStart, handler`txSize
      ensures handler.TxValid() && written == old(handler.TxRing()) && handler.TxRing() == []
    {
      hide PacketHandler.TxRing;
      written := [];
      while handler.txSize > 0
        invariant handler.TxValid() && written + handler.TxRing() == old(handler.TxRing())
        decreases handler.txSize
      {
        var c := handler.TxByte();
        written := written + [c];
      }
    }

    /** p->seq = seq. */
    static method SetSeq(p: array<uint8>, s: Seq16)
      requires p.Length >= 4
      modifies p
      ensures p[..] == WithSeq(old(p[..]), s)
    {
      p[2] := (s % 256) as uint8;
      p[3] := (s / 256) as uint8;
    }

    /** PacketHandler_sendPacket, with the history of what it accepts. */
    method Queue(p: array<uint8>) returns (status: Status)
      requires handler.TxValid() && p.Length >= 4 && p[1] as int == p.Length && p != handler.txBuffer
      modifies this`sent, handler`txEnd, handler`txSize, handler.txBuffer
      ensures handler.TxValid() && status == (if Fits(old(handler.TxRing()), p[..]) then Success else TxBufferFull)
      ensures handler.TxRing() == Push(old(handler.TxRing()), p[..])
      ensures sent == if status == Success then old(sent) + [p[..]] else old(sent)
      ensures p[..] == old(p[..])
    {
      hide Fits;
      hide Frame;
      assert p[..][..p[1]] == p[..];
      status := handler.SendPacket(p[..]);
      if status == Success { sent := sent + [p[..]]; }
    }

    /** _sendPacket. */
    method SendOne(p: array<uint8>) returns (status: Status)
      requires Valid() && p.Length >= 4 && p != handler.txBuffer && p != packetBuffer
      requires MayBeSent(p[..]) ==> p.Length == p[1] as int
      modifies this`globalSeq, this`sends, this`sent, handler`txEnd, handler`txSize, handler.txBuffer, p
      ensures Valid() && State() == Protocol.Send(old(State()), old(p[..]))
      ensures status == SendStatus(old(State()), old(p[..]))
      ensures p[..] == if MayBeSent(old(p[..])) then WithSeq(old(p[..]), globalSeq) else old(p[..])
    {
      hide PacketHandler.TxRing;
      hide StoreOk;
      hide Sound;
      hide PacketHandler.RxValid;
      hide Frame;
      hide Fits;
      SendIs(State(), p[..]);
      hide Protocol.Send;
      hide PacketSizes;
      SendSeqNext(sends);
      globalSeq, sends := NextSeq(globalSeq), sends + 1;
      if p[0] >= TYPE_MAX || PacketSizes(p[0]) == 0 { return UnknownType; }
      if p[1] != PacketSizes(p[0]) { return InvalidSize; }
      SetSeq(p, globalSeq);
      status := Queue(p);
    }

    /** OrazioClient_sendPacket. With a timeout it sends, flushes, and reads up to `timeout` packets until the
        response variable carries the type and sequence number of the packet. `blocked`: the line ran dry. */
    method SendPacket(p: array<uint8>, timeout: int, line: seq<uint8>)
      returns (status: Status, n: nat, written: seq<uint8>, blocked: bool)
      requires Valid() && p.Length >= 4 && p != handler.txBuffer && p != packetBuffer
      requires MayBeSent(p[..]) ==> p.Length == p[1] as int
      modifies this`globalSeq, this`sends, this`sent, this`store, handler, handler.txBuffer, packetBuffer, p
      ensures Valid() && n <= |line|
      ensures p[..] == if MayBeSent(old(p[..])) then WithSeq(old(p[..]), globalSeq) else old(p[..])
      ensures var h := Protocol.Send(old(State()), old(p[..]));
              var first := SendStatus(old(State()), old(p[..]));
              if timeout == 0 || first != Success then
                State() == h && status == first && n == 0 && written == [] && !blocked
              else
                && written == h.ring && State() == ReadAll(h.(ring := []), line[..n])
                && Outcome(h, p[..], Received(h.(ring := []), line[..n]), timeout, status, blocked)
                && (blocked ==> n == |line|)
    {
      hide PacketHandler.Valid;
      hide StoreOk;
      hide Sound;
      hide Run;
      hide ReadAll;
      hide SendStatus;
      hide MayBeSent;
      hide Protocol.Send;
      n, written, blocked := 0, [], false;
      status := SendOne(p);
      if timeout == 0 || status != Success { return; }
      written := FlushBuffer();
      ghost var h, q := State(), p[..];
      status, n, blocked := Await(p, timeout, line);
    }

    /** The loop of the blocking send. */
    method Await(p: array<uint8>, timeout: int, line: seq<uint8>) returns (status: Status, n: nat, blocked: bool)
      requires Valid() && p.Length >= 4 && p != packetBuffer
      modifies this`store, handler, packetBuffer
      ensures Valid() && n <= |line| && State() == ReadAll(old(State()), line[..n])
      ensures Outcome(old(State()), p[..], Received(old(State()), line[..n]), timeout, status, blocked)
      ensures blocked ==> n == |line|
    {
      hide Sound;
      hide PacketHandler.Valid;
      hide Run;
      hide ReadAll;
      hide Apply;
      ghost var h := State();
      status, n, blocked := Timeout, 0, false;
      var left := timeout;
      NothingReceived(h);
      while left > 0
        invariant Valid() && n <= |line| && State() == ReadAll(h, line[..n])
        invariant status == Timeout && !blocked && left <= timeout && (timeout >= 0 ==> left >= 0)
        invariant Unanswered(h, Received(h, line[..n]), p[..])
        invariant |Received(h, line[..n])| == timeout - (if timeout < 0 then timeout else left)
        decreases left
      {
        ghost var got := Received(h, line[..n]);
        var k, complete := ReadPacket(line[n..]);
        ReadOn(h, line, n, k);
        n := n + k;
        ReadAllIs(h, line[..n]);
        if !complete {
          assert line[n - k..][..k] == line[n - k..] && got + [] == got;
          blocked := true;
          return;
        }
        OneMore(h, got, Received(h, line[..n]), p[..]);
        var r := store[RESPONSE_KEY];
        if r[4] == p[0] && r[5] == p[2] && r[6] == p[3] {
          status := Success;
          assert Received(h, line[..n])[..|got|] == got;
          return;
        }
        left := left - 1;
      }
    }

    /** OrazioClient_sync: rounds that flush, queue the drive command, and read to the end of an epoch. What a round
        queues leaves with the flush of the next one, or with whatever flush follows. */
    method Sync(drive: array<uint8>, cycles: int, line: seq<uint8>)
      returns (ends: seq<nat>, written: seq<seq<uint8>>, blocked: bool)
      requires Valid() && drive.Length == 12 && drive != handler.txBuffer && drive != packetBuffer
      requires drive[0] == DRIVE_CONTROL && drive[1] == 12
      modifies this`globalSeq, this`sends, this`sent, this`store, handler, handler.txBuffer, packetBuffer, drive
      ensures Valid() && ReadsEpochs(old(State()), line, ends)
      ensures if blocked then |ends| + 1 == |written| <= cycles && StuckAfter(old(State()), line, ends)
              else |ends| == |written| == if cycles > 0 then cycles else 0
      ensures Queues(old(drive[..]), old(sends), old(State()).ring, written, State().ring, drive[..])
    {
      hide PacketHandler.Valid;
      hide StoreOk;
      hide Sound;
      hide Run;
      hide ReadAll;
      hide SyncBlocked;
      hide SyncDone;
      hide Queues;
      hide Frame;
      ghost var h, d, first := State(), drive[..], sends;
      ends, written, blocked := [], [], false;
      NothingReceived(h);
      CommandStarts(d, first, h.ring);
      assert line[..0] == [] && ReadsEpochs(h, line, []);
      hide ReadsEpochs;
      var c, n := 0, 0;
      while c < cycles
        invariant 0 <= c && (c <= cycles || c == 0) && |ends| == |written| == c && Valid() && !blocked
        invariant drive[0] == DRIVE_CONTROL && drive[1] == 12 && n == Last(ends) <= |line|
        invariant SeqOf(drive[..]) != 0 ==> sends == first + c
        invariant Queues(d, first, h.ring, written, State().ring, drive[..])
        invariant ReadsEpochs(h, line, ends) && SameReading(State(), ReadAll(h, line[..n]))
      {
        ghost var h1, before := State(), drive[..];
        var k, out;
        k, out, blocked := SyncOnce(drive, line[n..]);
        RoundReads(h, h1, State(), line, n, k);
        RoundQueues(d, first, h.ring, written, out, before, drive[..], State().ring);
        written := written + [out];
        if blocked { return; }
        EpochsSnoc(h, line, ends, n + k);
        ends, n, c := ends + [n + k], n + k, c + 1;
      }
    }

    /** One round: flush what waits, queue the drive command if it was ever set, and read until the number of the epoch
        changes. */
    method SyncOnce(drive: array<uint8>, line: seq<uint8>) returns (n: nat, written: seq<uint8>, blocked: bool)
      requires Valid() && drive.Length == 12 && drive != handler.txBuffer && drive != packetBuffer
      requires drive[0] == DRIVE_CONTROL && drive[1] == 12
      modifies this`globalSeq, this`sends, this`sent, this`store, handler, handler.txBuffer, packetBuffer, drive
      ensures Valid() && n <= |line| && written == old(State()).ring
      ensures SeqOf(old(drive[..])) != 0 ==>
                var q := WithSeq(old(drive[..]), SendSeq(old(sends) + 1));
                drive[..] == q && sends == old(sends) + 1 && sent == old(sent) + [q] && State().ring == Frame(q)
      ensures SeqOf(old(drive[..])) == 0 ==>
                drive[..] == old(drive[..]) && sends == old(sends) && sent == old(sent) && State().ring == []
      ensures SameReading(State(), ReadAll(old(State()), line[..n]))
      ensures if blocked then SyncBlocked(old(State()), line, n) else SyncDone(old(State()), line, n)
    {
      hide PacketHandler.Valid;
      hide StoreOk;
      hide Sound;
      hide Run;
      hide ReadAll;
      hide Protocol.Send;
      hide Frame;
      ghost var h, d := State(), drive[..];
      written := FlushBuffer();
      CommandFits(State(), d);
      if drive[2] != 0 || drive[3] != 0 {
        var status := SendOne(drive);
      }
      ghost var h1 := State();
      n, blocked := ReadEpoch(line);
      ReadAllIs(h, line[..n]);
      ReadAllIs(h1, line[..n]);
    }

    /** The inner loop of sync. */
    method ReadEpoch(line: seq<uint8>) returns (n: nat, blocked: bool)
      requires Valid()
      modifies this`store, handler, packetBuffer
      ensures Valid() && n <= |line| && State() == ReadAll(old(State()), line[..n])
      ensures if blocked then SyncBlocked(old(State()), line, n) else SyncDone(old(State()), line, n)
    {
      hide Sound;
      hide PacketHandler.Valid;
      hide Run;
      hide ReadAll;
      hide Apply;
      ghost var h := State();
      var current := EpochSeq(store);
      n, blocked := 0, false;
      NothingReceived(h);
      EmptyWaits(h.store);
      while true
        invariant Valid() && n <= |line| && State() == ReadAll(h, line[..n]) && !blocked
        invariant StillWaiting(h.store, Received(h, line[..n]))
        decreases |line| - n
      {
        ghost var got := Received(h, line[..n]);
        var k, complete := ReadPacket(line[n..]);
        ReadOn(h, line, n, k);
        n := n + k;
        ReadAllIs(h, line[..n]);
        if !complete {
          assert line[n - k..][..k] == line[n - k..] && got + [] == got && line[..n] == line;
          blocked := true;
          return;
        }
        ReadOn(h, line, n - k, k - 1);
        assert line[n - k..][..k][..k - 1] == line[n - k..][..k - 1];
        assert Received(h, line[..n])[..|got|] == got;
        OneMoreWaits(h.store, got, Received(h, line[..n]));
        if current != EpochSeq(store) { return; }
      }
    }
  }

  /** A drive command always finds room in an empty ring. */
  lemma {:induction false} CommandFits(h: Host, drive: Packet)
    requires h.ring == [] && |drive| == 12 && drive[0] == DRIVE_CONTROL && drive[1] == 12
    ensures var q := WithSeq(drive, SendSeq(h.sends + 1));
            MayBeSent(drive) &&
            Protocol.Send(h, drive) == h.(sends := h.sends + 1, sent := h.sent + [q], ring := Frame(q))
  {
    SendIs(h, drive);
    assert [] + Frame(WithSeq(drive, SendSeq(h.sends + 1))) == Frame(WithSeq(drive, SendSeq(h.sends + 1)));
  }

  /** The same receiver and variables. */
  predicate SameReading(h: Host, g: Host) { h.rx == g.rx && h.store == g.store }

  /** The drive command after some rounds: every round gives it the next number, until that is 0. */
  function CommandAfter(drive: Packet, sends: nat, rounds: nat): (d: Packet)
    requires |drive| == 12
    ensures |d| == 12 && d[..2] == drive[..2]
  {
    if rounds == 0 then drive
    else
      var d := CommandAfter(drive, sends, rounds - 1);
      if SeqOf(d) == 0 then d else WithSeq(d, SendSeq(sends + rounds))
  }

  /** What each of some rounds leaves in the ring. */
  function QueuedBy(drive: Packet, sends: nat, rounds: nat): (out: seq<seq<uint8>>)
    requires |drive| == 12
    ensures |out| == rounds
  {
    seq(rounds, c requires 0 <= c < rounds =>
      if SeqOf(CommandAfter(drive, sends, c)) == 0 then [] else Frame(CommandAfter(drive, sends, c + 1)))
  }

  /** A round that starts to read at one place of the line ends at another. */
  ghost predicate EpochFrom(h: Host, line: seq<uint8>, start: nat, end: nat) {
    start <= end <= |line| && SyncDone(ReadAll(h, line[..start]), line[start..], end - start)
  }

  /** The ends of epochs: sync stops at each. */
  ghost predicate ReadsEpochs(h: Host, line: seq<uint8>, ends: seq<nat>) {
    forall c | 0 <= c < |ends| :: EpochFrom(h, line, Last(ends[..c]), ends[c])
  }

  /** The first flush writes what waited, each further one what the round before has queued; the last command is left
      in the ring. */
  ghost predicate Queues(drive: Packet, sends: nat, waiting: seq<uint8>, written: seq<seq<uint8>>, left: seq<uint8>,
                         after: Packet)
  {
    && |drive| == 12 && after == CommandAfter(drive, sends, |written|)
    && written + [left] == [waiting] + QueuedBy(drive, sends, |written|)
  }

  /** Where the last of some epochs ends. */
  function Last(ends: seq<nat>): nat { if ends == [] then 0 else ends[|ends| - 1] }

  /** After these epochs the line has no end of another one. */
  ghost predicate StuckAfter(h: Host, line: seq<uint8>, ends: seq<nat>) {
    Last(ends) <= |line| && SyncBlocked(ReadAll(h, line[..Last(ends)]), line[Last(ends)..], |line| - Last(ends))
  }

  /** A drive command that was set is sent in every round, with ascending numbers, until the number of the host comes to
      0, modulo 2^16. From then on sync sends none, until the command is set again. */
  lemma {:induction false} CommandAfterIs(drive: Packet, sends: nat, rounds: nat)
    requires |drive| == 12
    ensures SeqOf(CommandAfter(drive, sends, rounds)) != 0 <==>
            SeqOf(drive) != 0 && forall n | sends < n <= sends + rounds :: SendSeq(n) != 0
    ensures SeqOf(CommandAfter(drive, sends, rounds)) != 0 && rounds > 0 ==>
              CommandAfter(drive, sends, rounds) == WithSeq(drive, SendSeq(sends + rounds))
    ensures SameBody(CommandAfter(drive, sends, rounds), drive)
  {
    if rounds > 0 {
      CommandAfterIs(drive, sends, rounds - 1);
      assert SendSeq(sends + rounds) == SeqOf(WithSeq(drive, SendSeq(sends + rounds)));
    }
  }

  lemma {:induction false} CommandStarts(drive: Packet, sends: nat, ring: seq<uint8>)
    requires |drive| == 12
    ensures Queues(drive, sends, ring, [], ring, drive)
  {
    assert [] + [ring] == [ring] + QueuedBy(drive, sends, 0);
  }

  lemma {:induction false} RoundQueues(drive: Packet, sends: nat, waiting: seq<uint8>, written: seq<seq<uint8>>,
                                       out: seq<uint8>, d: Packet, after: Packet, ring: seq<uint8>)
    requires Queues(drive, sends, waiting, written, out, d) && |d| == 12
    requires if SeqOf(d) == 0 then after == d && ring == []
             else after == WithSeq(d, SendSeq(sends + |written| + 1)) && ring == Frame(after)
    ensures Queues(drive, sends, waiting, written + [out], ring, after)
  {
    hide Frame;
    hide QueuedBy;
    hide SeqOf;
    hide WithSeq;
    var c := |written|;
    assert after == CommandAfter(drive, sends, c + 1);
    QueuedSnoc(drive, sends, c);
    hide CommandAfter;
    OneFurther(written + [out], waiting, QueuedBy(drive, sends, c), ring);
  }

  lemma {:induction false} OneFurther(out: seq<seq<uint8>>, first: seq<uint8>, queued: seq<seq<uint8>>,
                                      ring: seq<uint8>)
    requires out == [first] + queued
    ensures out + [ring] == [first] + (queued + [ring])
  {
  }

  lemma {:induction false} QueuedSnoc(drive: Packet, sends: nat, c: nat)
    requires |drive| == 12
    ensures QueuedBy(drive, sends, c + 1) == QueuedBy(drive, sends, c) +
            [if SeqOf(CommandAfter(drive, sends, c)) == 0 then [] else Frame(CommandAfter(drive, sends, c + 1))]
  {
    hide CommandAfter;
    hide Frame;
  }

  /** A round reads on from where the last one stopped. */
  lemma {:induction false} RoundReads(h: Host, h1: Host, after: Host, line: seq<uint8>, n: nat, k: nat)
    requires n + k <= |line| && SameReading(h1, ReadAll(h, line[..n]))
    requires SameReading(after, ReadAll(h1, line[n..][..k]))
    ensures SameReading(after, ReadAll(h, line[..n + k]))
    ensures SyncDone(h1, line[n..], k) ==> SyncDone(ReadAll(h, line[..n]), line[n..], k)
    ensures SyncBlocked(h1, line[n..], k) ==> k == |line| - n && SyncBlocked(ReadAll(h, line[..n]), line[n..], k)
  {
    hide Run;
    ReadOn(h, line, n, k);
    var g := ReadAll(h, line[..n]);
    ReadAllIs(h1, line[n..][..k]);
    ReadAllIs(g, line[n..][..k]);
    hide ReadAll;
    SyncOfReading(h1, g, line[n..], k);
    hide SyncDone;
    hide StillWaiting;
  }

  /** Where sync stops depends on the receiver and the variables only. */
  lemma {:induction false} SyncOfReading(h: Host, g: Host, line: seq<uint8>, n: nat)
    requires SameReading(h, g)
    ensures SyncDone(h, line, n) <==> SyncDone(g, line, n)
    ensures SyncBlocked(h, line, n) <==> SyncBlocked(g, line, n)
  {
    hide Run;
    hide Apply;
    forall m | 0 <= m <= |line| ensures Received(h, line[..m]) == Received(g, line[..m]) {}
    if n == |line| { assert line[..n] == line; }
    hide SyncWaits;
    hide EpochSeq;
    hide HasEpoch;
  }

  lemma {:induction false} EpochsSnoc(h: Host, line: seq<uint8>, ends: seq<nat>, end: nat)
    requires ReadsEpochs(h, line, ends) && EpochFrom(h, line, Last(ends), end)
    ensures ReadsEpochs(h, line, ends + [end])
  {
    hide EpochFrom;
    hide Last;
    var all := ends + [end];
    forall c | 0 <= c < |all| ensures EpochFrom(h, line, Last(all[..c]), all[c]) {
      if c < |ends| { assert all[..c] == ends[..c]; } else { assert all[..c] == ends; }
    }
  }

  /** No packet received so far has changed the number of the epoch. */
  ghost predicate StillWaiting(store: Store, got: seq<Packet>)
    requires HasEpoch(store)
  {
    SyncWaits(store, got) && HasEpoch(Apply(store, got)) && EpochSeq(Apply(store, got)) == EpochSeq(store)
  }

  /** Sync returns with the packet that changes the number. */
  ghost predicate SyncDone(h: Host, line: seq<uint8>, n: nat) {
    && 0 < n <= |line| && HasEpoch(h.store)
    && var got := Received(h, line[..n]);
       && got != [] && SyncWaits(h.store, got) && |Received(h, line[..n - 1])| < |got|
       && HasEpoch(Apply(h.store, got)) && EpochSeq(Apply(h.store, got)) != EpochSeq(h.store)
  }

  ghost predicate SyncBlocked(h: Host, line: seq<uint8>, n: nat) {
    n == |line| && HasEpoch(h.store) && StillWaiting(h.store, Received(h, line))
  }

  /** Sync reads exactly one epoch. A host between frames that holds another epoch's number starts to read
      where an epoch starts: if it returns, it has read the frames of that epoch and no byte more. */
  lemma {:induction false} SyncReadsOneEpoch(h: Host, line: seq<uint8>, n: nat, a: seq<Packet>, g: Seq16)
    requires SyncDone(h, line, n) && h.rx == SeekAA
    requires IsEpoch(a, g) && AllMatch(TO_HOST, a) && EpochSeq(h.store) != g && Frames(a) <= line
    ensures n == |Frames(a)| && Received(h, line[..n]) == a && ReadAll(h, line[..n]).rx == SeekAA
    ensures HasEpoch(ReadAll(h, line[..n]).store) && EpochSeq(ReadAll(h, line[..n]).store) == g
  {
    hide Run;
    hide IsEpoch;
    hide ReadAll;
    var f := |Frames(a)|;
    assert NoneEmpty(a);
    if n < f {
      NotBefore(h, line, n, a, g);
    } else if n > f {
      NotAfter(h, line, n, a, g);
    } else {
      EpochPart(h, line, f, a);
      SyncReadsToEnd(h.store, a, g);
      ReadAllIs(h, line[..n]);
    }
  }

  lemma {:induction false} NotBefore(h: Host, line: seq<uint8>, n: nat, a: seq<Packet>, g: Seq16)
    requires SyncDone(h, line, n) && h.rx == SeekAA && NoneEmpty(a)
    requires IsEpoch(a, g) && AllMatch(TO_HOST, a) && EpochSeq(h.store) != g && Frames(a) <= line
    ensures n >= |Frames(a)|
  {
    hide Run;
    hide IsEpoch;
    if n < |Frames(a)| {
      EpochPart(h, line, n, a);
      SyncReadsToEnd(h.store, a, g);
      assert false;
    }
  }

  lemma {:induction false} NotAfter(h: Host, line: seq<uint8>, n: nat, a: seq<Packet>, g: Seq16)
    requires SyncDone(h, line, n) && h.rx == SeekAA && NoneEmpty(a)
    requires IsEpoch(a, g) && AllMatch(TO_HOST, a) && EpochSeq(h.store) != g && Frames(a) <= line
    ensures n <= |Frames(a)|
  {
    hide Run;
    hide IsEpoch;
    var f := |Frames(a)|;
    if n > f {
      EpochPart(h, line, f, a);
      ReceivedGrows(h, line, f, n - 1);
      ReceivedGrows(h, line, n - 1, n);
      assert Received(h, line[..n])[..|a|] == a;
      SyncReadsToEnd(h.store, a, g);
      assert false;
    }
  }

  /** What part of an epoch delivers. */
  lemma {:induction false} EpochPart(h: Host, line: seq<uint8>, n: nat, a: seq<Packet>)
    requires h.rx == SeekAA && AllMatch(TO_HOST, a) && Frames(a) <= line && n <= |Frames(a)|
    ensures Received(h, line[..n]) == a[..Complete(a, n)]
    ensures n < |Frames(a)| ==> Complete(a, n) < |a|
    ensures n == |Frames(a)| ==> Received(h, line[..n]) == a && Run(TO_HOST, SeekAA, Offered(line[..n])).rx == SeekAA
  {
    hide Run;
    assert Bytes(Offered(line[..n])) == line[..n] == Frames(a)[..n];
    RoundTrip(TO_HOST, a, Offered(line[..n]));
    CompleteIsExact(a, n);
    if Complete(a, n) == |a| { assert a[..|a|] == a; }
  }

  lemma {:induction false} ReceivedGrows(h: Host, line: seq<uint8>, m: nat, n: nat)
    requires m <= n <= |line|
    ensures Received(h, line[..m]) <= Received(h, line[..n])
  {
    hide Run;
    assert line[..n] == line[..m] + line[m..][..n - m];
    ReadOn(h, line, m, n - m);
  }

  lemma {:induction false} EmptyWaits(store: Store)
    requires HasEpoch(store)
    ensures StillWaiting(store, [])
  {
  }

  lemma {:induction false} OneMoreWaits(store: Store, before: seq<Packet>, got: seq<Packet>)
    requires HasEpoch(store) && StillWaiting(store, before) && |got| == |before| + 1 && got[..|before|] == before
    ensures SyncWaits(store, got)
  {
    forall m | 0 <= m < |got|
      ensures HasEpoch(Apply(store, got[..m])) && EpochSeq(Apply(store, got[..m])) == EpochSeq(store)
    {
      if m < |before| { assert got[..m] == before[..m]; }
    }
  }

  /** None of the packets, as it came, made the response variable answer p. */
  ghost predicate Unanswered(h: Host, got: seq<Packet>, p: Packet)
    requires |p| >= 4
  {
    forall m | 0 < m <= |got| :: !ResponseFor(Apply(h.store, got[..m]), p)
  }

  /** How a blocking send ends. */
  ghost predicate Outcome(h: Host, p: Packet, got: seq<Packet>, timeout: int, status: Status, blocked: bool)
    requires |p| >= 4
  {
    match status
    case Success => !blocked && got != [] && |got| <= timeout &&
                    Unanswered(h, got[..|got| - 1], p) && ResponseFor(Apply(h.store, got), p)
    case Timeout => Unanswered(h, got, p) &&
                    if blocked then |got| < timeout else |got| == if timeout > 0 then timeout else 0
    case _ => false
  }

  lemma {:induction false} OneMore(h: Host, before: seq<Packet>, got: seq<Packet>, p: Packet)
    requires |p| >= 4 && |got| == |before| + 1 && got[..|before|] == before && Unanswered(h, before, p)
    ensures !ResponseFor(Apply(h.store, got), p) ==> Unanswered(h, got, p)
  {
    forall m | 0 < m <= |got| && !ResponseFor(Apply(h.store, got), p)
      ensures !ResponseFor(Apply(h.store, got[..m]), p)
    {
      if m == |got| { assert got[..m] == got; } else { assert got[..m] == before[..m]; }
    }
  }

  lemma {:induction false} ReadOn(h: Host, line: seq<uint8>, n: nat, k: nat)
    requires n + k <= |line|
    ensures var h1 := ReadAll(h, line[..n]);
            && ReadAll(h, line[..n + k]) == ReadAll(h1, line[n..][..k])
            && Received(h, line[..n + k]) == Received(h, line[..n]) + Received(h1, line[n..][..k])
  {
    hide Run;
    assert line[..n + k] == line[..n] + line[n..][..k];
    ReadAllConcat(h, line[..n], line[n..][..k]);
  }

  lemma {:induction false} ReadAllConcat(h: Host, a: seq<uint8>, b: seq<uint8>)
    ensures ReadAll(h, a + b) == ReadAll(ReadAll(h, a), b)
    ensures Received(h, a + b) == Received(h, a) + Received(ReadAll(h, a), b)
  {
    hide Run;
    hide Step;
    hide Apply;
    hide ReadAll;
    var h1 := ReadAll(h, a);
    ReadAllIs(h, a);
    ReadAllIs(h, a + b);
    ReadAllIs(h1, b);
    assert Offered(a + b) == Offered(a) + Offered(b);
    RunConcat(TO_HOST, h.rx, Offered(a), Offered(b));
    ApplyConcat(h.store, Received(h, a), Received(h1, b));
  }

  /** packet_sizes: what may be sent, and its size; 0 for other types. */
  function PacketSizes(t: uint8): (size: uint8)
    ensures size != 0 ==> t < TYPE_MAX
  {
    if t in TO_ROBOT then TO_ROBOT[t] else 0
  }

  /** A packet of an outbound type and its size. */
  predicate MayBeSent(p: Packet)
    requires |p| >= 4
  {
    PacketSizes(p[0]) != 0 && p[1] == PacketSizes(p[0])
  }

  /** The send of Protocol, step by step. */
  lemma {:induction false} SendIs(h: Host, p: Packet)
    requires |p| >= 4
    ensures var h1, q := h.(sends := h.sends + 1), WithSeq(p, SendSeq(h.sends + 1));
            Protocol.Send(h, p) ==
            if MayBeSent(p) && Fits(h.ring, q) then h1.(ring := Push(h.ring, q), sent := h.sent + [q]) else h1
  {
  }

  lemma {:induction false} SendSeqNext(sends: nat)
    ensures SendSeq(sends + 1) == NextSeq(SendSeq(sends))
  {
  }

  lemma {:induction false} NothingReceived(h: Host)
    ensures Received(h, []) == [] && ReadAll(h, []) == h
  {
  }

  lemma {:induction false} ReadAllSnoc(h: Host, b: seq<uint8>, c: uint8)
    ensures ReadAll(h, b + [c]) == ReadByte(ReadAll(h, b), c)
  {
    assert (b + [c])[..|b|] == b;
  }

  lemma {:induction false} AtMostOne(ops: OpTable, rx: Rx, i: Input)
    ensures |Delivered(ops, rx, i)| <= 1
  {
  }

  /** What _sendPacket answers. */
  function SendStatus(h: Host, p: Packet): Status
    requires |p| >= 4
  {
    if PacketSizes(p[0]) == 0 then UnknownType
    else if PacketSizes(p[0]) != p[1] then InvalidSize
    else if Fits(h.ring, WithSeq(p, SendSeq(h.sends + 1))) then Success
    else TxBufferFull
  }

  /** The four answers and what they mean for the host: success means that exactly the numbered packet was accepted,
      anything else that nothing was. Unknown is every type but the seven outbound ones; a full ring is one that has
      no room for payload and frame bytes. Every call consumes a number. */
  lemma {:induction false} SendStatusMeans(h: Host, p: Packet)
    requires |p| >= 4 && (MayBeSent(p) ==> |p| == p[1] as int)
    ensures var status, after := SendStatus(h, p), Protocol.Send(h, p);
            && after.sends == h.sends + 1 && after.rx == h.rx && after.store == h.store
            && (status == Success ==> after.sent == h.sent + [WithSeq(p, SendSeq(h.sends + 1))])
            && (status != Success ==> after.sent == h.sent && after.ring == h.ring)
            && (status == UnknownType <==> p[0] !in {1, 3, 5, 6, 8, 9, 13})
            && (status == InvalidSize <==> p[0] in {1, 3, 5, 6, 8, 9, 13} && p[1] != TO_ROBOT[p[0]])
            && (status == TxBufferFull <==> MayBeSent(p) && |h.ring| + |p| + 3 > 254)
            && status in {Success, UnknownType, InvalidSize, TxBufferFull}
  {
    SendIs(h, p);
    hide Protocol.Send;
    hide Frame;
  }

  /** What the client's methods do is what moves of the system do: sends, flushes, and reads one by one. */
  function Reads(n: nat): (ms: seq<Move>)
    ensures |ms| == n && forall i | 0 <= i < n :: ms[i] == HostRead
  {
    seq(n, i requires 0 <= i < n => HostRead)
  }

  lemma {:induction false} ReadsAreMoves(s: System, n: nat)
    requires n <= |s.toHost|
    ensures Runnable(s, Reads(n))
    ensures var e := After(s, Reads(n)); e.host == ReadAll(s.host, s.toHost[..n]) && e.toHost == s.toHost[n..]
    decreases n
  {
    if n > 0 {
      var s1 := Make(s, HostRead);
      assert Reads(n)[1..] == Reads(n - 1);
      ReadsAreMoves(s1, n - 1);
      var b := s.toHost[..n];
      assert b == b[..1] + s1.toHost[..n - 1];
      ReadAllConcat(s.host, b[..1], s1.toHost[..n - 1]);
      NothingReceived(s.host);
      assert b[..1] == [] + [b[0]];
      ReadAllSnoc(s.host, [], b[0]);
    }
  }
}
