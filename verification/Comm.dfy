/** orazio_comm.c as it stands: the deferred handler, the parameters, the sequence number of the cycle, and
    the counters, proved against the cycle of Firmware. Bytes from the line are an argument, bytes to the
    line a result. */
module Comms {
  import opened Words
  import opened Packets
  import opened Receiver
  import opened Delivery
  import opened Transmit
  import opened Deferred
  import opened PacketHandlers
  import opened DeferredHandlers
  import opened Messages
  import opened Firmware

  class Comm {
    const handler: DeferredPacketHandler
    var globalSeq: Seq16
    var params: Params
    // system_status
    var rxPackets: Word
    var rxPacketErrors: Word
    var txPackets: Word
    var txPacketErrors: Word
    ghost var sent: seq<Packet>
    ghost var echoed: set<Key>

    ghost predicate Valid()
      reads this, handler, handler.base, handler.base.rxBuffer, handler.pendingPackets, handler.queue
    {
      && handler.Valid() && handler.base.operations == TO_ROBOT && handler.caps == ROBOT_CAPS && ParamsOk(params)
    }

    /** Orazio_commInit. */
    constructor (params: Params)
      requires ParamsOk(params)
      ensures Valid() && handler.State() == Fresh && State() == Robot(params, 0, [], [], {})
      ensures fresh(handler) && fresh(handler.base) && fresh(handler.base.txBuffer) && fresh(handler.pendingPackets)
      ensures rxPackets == rxPacketErrors == txPackets == txPacketErrors == 0
    {
      handler := new DeferredPacketHandler();
      globalSeq, this.params, sent, echoed := 0, params, [], {};
      rxPackets, rxPacketErrors, txPackets, txPacketErrors := 0, 0, 0, 0;
      new;
      InitializePackets();
    }

    /** Two buffers for a type. */
    method InstallPacket(t: uint8, size: uint8)
      requires handler.Valid() && handler.State() == Fresh && t < TYPE_MAX && 4 <= size as int <= SIZE_MAX
      requires t !in handler.base.operations
      modifies handler`infos, handler`owner, handler`caps, handler.base`operations
      ensures handler.Valid() && handler.State() == Fresh
      ensures handler.base.operations == old(handler.base.operations)[t := size]
      ensures handler.caps == old(handler.caps)[t := PER_TYPE_MAX]
    {
      hide Pool;
      hide Sound;
      hide DeferredPacketHandler.Listed;
      hide FixedSizes;
      assert |Contents(handler.queue)| == 0;
      var a := new uint8[size];
      var b := new uint8[size];
      var status := handler.InstallPacket(t, size, [a, b]);
      assert status == Success;
    }

    method InitializePackets()
      requires handler.Valid() && handler.State() == Fresh
      requires handler.base.operations == map[]
      requires handler.caps == map[]
      modifies handler`infos, handler`owner, handler`caps, handler.base`operations
      ensures handler.Valid() && handler.State() == Fresh
      ensures handler.base.operations == TO_ROBOT && handler.caps == ROBOT_CAPS
    {
      hide DeferredPacketHandler.Valid;
      hide DeferredPacketHandler.State;
      InstallPacket(PARAM_CONTROL, 7);
      InstallPacket(SYSTEM_PARAM, 24);
      InstallPacket(JOINT_CONTROL, 8);
      InitializeMore();
    }

    method InitializeMore()
      requires handler.Valid() && handler.State() == Fresh
      requires handler.base.operations == map[PARAM_CONTROL := 7, SYSTEM_PARAM := 24, JOINT_CONTROL := 8]
      requires handler.caps == map[PARAM_CONTROL := 2, SYSTEM_PARAM := 2, JOINT_CONTROL := 2]
      modifies handler`infos, handler`owner, handler`caps, handler.base`operations
      ensures handler.Valid() && handler.State() == Fresh
      ensures handler.base.operations == TO_ROBOT && handler.caps == ROBOT_CAPS
    {
      hide DeferredPacketHandler.Valid;
      hide DeferredPacketHandler.State;
      InstallPacket(JOINT_PARAM, 25);
      InstallPacket(DRIVE_CONTROL, 12);
      InitializeRest();
    }

    method InitializeRest()
      requires handler.Valid() && handler.State() == Fresh
      requires handler.base.operations == map[PARAM_CONTROL := 7, SYSTEM_PARAM := 24, JOINT_CONTROL := 8,
                                              JOINT_PARAM := 25, DRIVE_CONTROL := 12]
      requires handler.caps == map[PARAM_CONTROL := 2, SYSTEM_PARAM := 2, JOINT_CONTROL := 2,
                                 JOINT_PARAM := 2, DRIVE_CONTROL := 2]
      modifies handler`infos, handler`owner, handler`caps, handler.base`operations
      ensures handler.Valid() && handler.State() == Fresh
      ensures handler.base.operations == TO_ROBOT && handler.caps == ROBOT_CAPS
    {
      hide DeferredPacketHandler.Valid;
      hide DeferredPacketHandler.State;
      InstallPacket(DRIVE_PARAM, 38);
      InstallPacket(SONAR_PARAM, 12);
    }

    /** What is to be sent. */
    ghost function State(): Robot
      reads this, handler, handler.base, handler.base.rxBuffer, handler.base.txBuffer
      reads handler.pendingPackets, handler.queue
      requires handler.Valid()
    {
      Robot(params, globalSeq, handler.base.TxRing(), sent, echoed)
    }

    /** PacketHandler_sendPacket on the base of the deferred handler: nothing that waits there changes. */
    method Queue(p: Packet) returns (status: Status)
      requires handler.Valid() && |p| >= 4 && p[1] as int == |p|
      modifies this`sent, handler.base`txEnd, handler.base`txSize, handler.base.txBuffer
      ensures handler.Valid() && handler.State() == old(handler.State())
      ensures State() == Firmware.Post(old(State()), p)
      ensures status == if Fits(old(State()).ring, p) then Success else TxBufferFull
    {
      hide Pool;
      hide Sound;
      hide Fits;
      hide Frame;
      hide FixedSizes;
      hide DeferredPacketHandler.Listed;
      hide DeferredPacketHandler.Flight;
      assert p[..p[1]] == p;
      ghost var q := handler.queue;
      assert forall i | 0 <= i < |q| :: q[i] != handler.base.txBuffer;
      status := handler.base.SendPacket(p);
      assert forall i | 0 <= i < |q| :: q[i][..] == old(q[i][..]);
      if status == Success { sent := sent + [p]; }
    }

    /** Orazio_sendPacket: the packet gets the number of the cycle; the send is counted. */
    method SendPacket(p: Packet) returns (status: Status)
      requires handler.Valid() && |p| >= 4 && p[1] as int == |p|
      modifies this`sent, this`txPackets, this`txPacketErrors, handler.base`txEnd, handler.base`txSize
      modifies handler.base.txBuffer
      ensures handler.Valid() && handler.State() == old(handler.State())
      ensures State() == Emit(old(State()), p)
      ensures status == if Fits(old(State()).ring, p) then Success else TxBufferFull
      ensures txPackets == if status == Success then ToWord(old(txPackets) + 1) else old(txPackets)
      ensures txPacketErrors == if status == Success then old(txPacketErrors) else ToWord(old(txPacketErrors) + 1)
    {
      hide DeferredPacketHandler.Valid;
      hide DeferredPacketHandler.State;
      hide Frame;
      var q := WithSeq(p, globalSeq);
      status := Queue(q);
      if status == Success {
        txPackets := ToWord(txPackets + 1);
      } else {
        txPacketErrors := ToWord(txPacketErrors + 1);
      }
    }

    /** Orazio_sendPacket on a parameter variable: the variable keeps the number. */
    method SendParam(k: Key)
      requires handler.Valid() && k in params.vars && |params.vars[k]| >= 4
      requires params.vars[k][1] as int == |params.vars[k]|
      modifies this`params, this`echoed, this`sent, this`txPackets, this`txPacketErrors
      modifies handler.base`txEnd, handler.base`txSize, handler.base.txBuffer
      ensures handler.Valid() && handler.State() == old(handler.State())
      ensures State() == EmitParam(old(State()), k)
    {
      hide DeferredPacketHandler.Valid;
      hide DeferredPacketHandler.State;
      hide Fits;
      hide Frame;
      var q := WithSeq(params.vars[k], globalSeq);
      params := params.(vars := params.vars[k := q]);
      assert WithSeq(q, globalSeq) == q;
      var status := SendPacket(q);
      echoed := if status == Success then echoed + {k} else echoed - {k};
    }

    /** Orazio_handlePacket: check the index, copy, post-process, send back, answer. `joints` is what
        Orazio_jointsInit answers, should it be called. */
    method HandlePacket(p: Packet, joints: uint8)
      requires handler.Valid() && ParamsOk(params) && Sendable(p) && p[0] != PARAM_CONTROL
      modifies this`params, this`echoed, this`sent, this`txPackets, this`txPacketErrors
      modifies handler.base`txEnd, handler.base`txSize, handler.base.txBuffer
      ensures handler.Valid() && handler.State() == old(handler.State())
      ensures State() == HandleOne(old(State()), p, joints)
    {
      hide DeferredPacketHandler.Valid;
      hide DeferredPacketHandler.State;
      hide Fits;
      hide Frame;
      hide EmitParam;
      hide Emit;
      HandleOk(params, p, joints);
      EchoFits(params, p, joints);
      hide ParamsOk;
      var status: Status;
      if Indexed(p[0]) && p[4] >= NUM_JOINTS {
        status := SendPacket(Response(p, GENERIC_ERROR));
        return;
      }
      var k := KeyOf(p);
      params := params.(vars := params.vars[k := p]);
      var r := if p[0] == JOINT_PARAM then joints else SUCCESS;
      if IsParam(p[0]) { SendParam(k); }
      status := SendPacket(Response(p, r));
    }

    /** The parameter that a type code stands for. */
    static method Select(p: Packet) returns (target: Option<Key>)
      requires Sendable(p) && p[0] == PARAM_CONTROL
      ensures target == Target(p)
    {
      match p[5] {
        case 0 => target := Some(Key(SYSTEM_PARAM, 0));
        case 1 => target := Some(Key(JOINT_PARAM, p[6]));
        case 2 => target := Some(Key(DRIVE_PARAM, 0));
        case 3 => target := Some(Key(SONAR_PARAM, 0));
        case _ => target := None;
      }
    }

    /** Orazio_handleParamCtl: which parameters, what to do with them, send them, answer. */
    method HandleParamCtl(p: Packet)
      requires handler.Valid() && ParamsOk(params) && Sendable(p) && p[0] == PARAM_CONTROL
      modifies this`params, this`echoed, this`sent, this`txPackets, this`txPacketErrors
      modifies handler.base`txEnd, handler.base`txSize, handler.base.txBuffer
      ensures handler.Valid() && handler.State() == old(handler.State())
      ensures State() == HandleOne(old(State()), p, 0)
    {
      hide DeferredPacketHandler.Valid;
      hide DeferredPacketHandler.State;
      hide Fits;
      hide Frame;
      hide EmitParam;
      hide Emit;
      HandleOk(params, p, 0);
      EchoFits(params, p, 0);
      var r := SUCCESS;
      var target := Select(p);
      if target == None { r := GENERIC_ERROR; }
      match p[4] {
        case 0 => r := SUCCESS;
        case 1 =>
          // Orazio_paramLoad
          if target == None {
            r := GENERIC_ERROR;
          } else {
            params := params.(vars := params.vars[target.value := params.eeprom[target.value]]);
          }
        case 2 =>
          // Orazio_paramSave
          if target == None {
            r := GENERIC_ERROR;
          } else {
            params := params.(eeprom := params.eeprom[target.value := params.vars[target.value]]);
          }
        case _ => r := GENERIC_ERROR;
      }
      hide ParamsOk;
      if target != None { SendParam(target.value); }
      var status := SendPacket(Response(p, r));
    }

    /** One byte, with the counts of packets and errors. */
    method ReadByte(c: uint8)
      requires Valid()
      modifies this`rxPackets, this`rxPacketErrors, handler`infos, handler`pendingSize, handler`queue
      modifies handler.pendingPackets, handler.base, handler.owner.Keys
      ensures Valid() && State() == old(State())
      ensures handler.State() == ByteStep(TO_ROBOT, ROBOT_CAPS, old(handler.State()), c)
      ensures rxPackets == ToWord(old(rxPackets) + |Arrived(TO_ROBOT, ROBOT_CAPS, old(handler.State()), Byte(c))|)
      ensures rxPacketErrors == ToWord(old(rxPacketErrors) + Failed(old(handler.State()), c))
    {
      hide Pool;
      hide Sound;
      hide Headed;
      hide Contents;
      hide FixedSizes;
      hide PacketHandler.RxValid;
      hide PacketHandler.TxValid;
      hide PacketHandler.Rx;
      hide DeferredPacketHandler.State;
      hide DeferredPacketHandler.Listed;
      hide DeferredPacketHandler.Flight;
      hide ParamsOk;
      hide ByteStep;
      OneArrival(handler.State(), c);
      hide Arrived;
      hide Step;
      var status := handler.RxByte(c);
      if Negative(status) { rxPacketErrors := ToWord(rxPacketErrors + 1); }
      if status == SyncChecksum { rxPackets := ToWord(rxPackets + 1); }
    }

    /** Orazio_flushInputBuffers: every byte that has arrived. */
    method FlushInput(line: seq<uint8>)
      requires Valid()
      modifies this`rxPackets, this`rxPacketErrors, handler`infos, handler`pendingSize, handler`queue
      modifies handler.pendingPackets, handler.base, handler.owner.Keys
      ensures Valid() && State() == old(State())
      ensures handler.State() == DRun(TO_ROBOT, ROBOT_CAPS, old(handler.State()), BytesOf(line))
      ensures rxPackets ==
              ToWord(old(rxPackets) + |Arrivals(TO_ROBOT, ROBOT_CAPS, old(handler.State()), BytesOf(line))|)
      ensures rxPacketErrors == ToWord(old(rxPacketErrors) + Failures(old(handler.State()), line))
    {
      hide Pool;
      hide Sound;
      hide Headed;
      hide Contents;
      hide FixedSizes;
      hide PacketHandler.RxValid;
      hide PacketHandler.TxValid;
      hide PacketHandler.Rx;
      hide DeferredPacketHandler.State;
      hide DeferredPacketHandler.Listed;
      hide DeferredPacketHandler.Flight;
      hide ParamsOk;
      hide ByteStep;
      hide Arrived;
      hide Failed;
      hide ToWord;
      ghost var s := handler.State();
      WordKeeps(rxPackets);
      WordKeeps(rxPacketErrors);
      assert BytesOf(line[..0]) == [];
      for i := 0 to |line|
        modifies this`rxPackets, this`rxPacketErrors, handler`infos, handler`pendingSize, handler`queue
        modifies handler.pendingPackets, handler.base, handler.owner.Keys
        invariant Valid() && State() == old(State())
        invariant handler.State() == DRun(TO_ROBOT, ROBOT_CAPS, s, BytesOf(line[..i]))
        invariant rxPackets == ToWord(old(rxPackets) + |Arrivals(TO_ROBOT, ROBOT_CAPS, s, BytesOf(line[..i]))|)
        invariant rxPacketErrors == ToWord(old(rxPacketErrors) + Failures(s, line[..i]))
      {
        ReadByte(line[i]);
        NextByte(s, line, i);
        WordAdd(old(rxPackets) + |Arrivals(TO_ROBOT, ROBOT_CAPS, s, BytesOf(line[..i]))|,
                |Arrived(TO_ROBOT, ROBOT_CAPS, DRun(TO_ROBOT, ROBOT_CAPS, s, BytesOf(line[..i])), Byte(line[i]))|);
        WordAdd(old(rxPacketErrors) + Failures(s, line[..i]),
                Failed(DRun(TO_ROBOT, ROBOT_CAPS, s, BytesOf(line[..i])), line[i]));
      }
      assert line[..|line|] == line;
    }

    /** Orazio_flushOutputBuffers: the ring goes to the line. */
    method FlushOutput() returns (written: seq<uint8>)
      requires handler.Valid()
      modifies handler.base`txStart, handler.base`txSize
      ensures handler.Valid() && handler.State() == old(handler.State())
      ensures written == old(State()).ring && State() == old(State()).(ring := [])
    {
      hide Pool;
      hide Sound;
      hide PacketHandler.RxValid;
      hide FixedSizes;
      hide DeferredPacketHandler.Listed;
      hide DeferredPacketHandler.Flight;
      written := DrainRing();
    }

    method DrainRing() returns (written: seq<uint8>)
      requires handler.base.TxValid()
      modifies handler.base`txStart, handler.base`txSize
      ensures handler.base.TxValid() && written == old(handler.base.TxRing()) && handler.base.TxRing() == []
    {
      hide PacketHandler.TxRing;
      written := [];
      while handler.base.txSize > 0
        invariant handler.base.TxValid() && written + handler.base.TxRing() == old(handler.base.TxRing())
        decreases handler.base.txSize
      {
        var c := handler.base.TxByte();
        written := written + [c];
      }
    }

    /** The actions of the pending packets, the oldest first. */
    method HandlePending(ps: seq<Packet>, joints: seq<uint8>)
      requires handler.Valid() && ParamsOk(params) && AllSendable(ps) && |joints| == |ps|
      modifies this`params, this`echoed, this`sent, this`txPackets, this`txPacketErrors
      modifies handler.base`txEnd, handler.base`txSize, handler.base.txBuffer
      ensures handler.Valid() && handler.State() == old(handler.State()) && ParamsOk(params)
      ensures State() == HandleAll(old(State()), ps, joints)
    {
      assert ParamsOk(State().params);
      hide DeferredPacketHandler.Valid;
      hide DeferredPacketHandler.State;
      hide ParamsOk;
      hide HandleOne;
      hide Sendable;
      hide Comm.State;
      ghost var r := State();
      assert ps[0..] == ps && joints[0..] == joints;
      for i := 0 to |ps|
        invariant handler.Valid() && handler.State() == old(handler.State()) && ParamsOk(params)
        invariant AllSendable(ps[i..]) && ParamsOk(State().params)
        invariant HandleAll(State(), ps[i..], joints[i..]) == HandleAll(r, ps, joints)
      {
        HandleOneOk(State(), ps[i], joints[i]);
        assert ps[i..][1..] == ps[i + 1..] && joints[i..][1..] == joints[i + 1..];
        HandleAction(ps[i], joints[i]);
      }
    }

    /** The action installed for the type of p. */
    method HandleAction(p: Packet, joints: uint8)
      requires handler.Valid() && ParamsOk(params) && Sendable(p)
      modifies this`params, this`echoed, this`sent, this`txPackets, this`txPacketErrors
      modifies handler.base`txEnd, handler.base`txSize, handler.base.txBuffer
      ensures handler.Valid() && handler.State() == old(handler.State())
      ensures State() == HandleOne(old(State()), p, joints)
    {
      hide DeferredPacketHandler.Valid;
      hide DeferredPacketHandler.State;
      hide ParamsOk;
      hide EmitParam;
      hide Emit;
      if p[0] == PARAM_CONTROL { HandleParamCtl(p); } else { HandlePacket(p, joints); }
    }

    /** The status packets that the mask enables, the string message, the end of the epoch. */
    method SendPeriodic(report: Report)
      requires handler.Valid() && ParamsOk(params) && report.Valid()
      modifies this`sent, this`txPackets, this`txPacketErrors, handler.base`txEnd, handler.base`txSize
      modifies handler.base.txBuffer
      ensures handler.Valid() && handler.State() == old(handler.State())
      ensures State() == EmitReport(old(State()), Mask(old(State()).params), report)
    {
      hide DeferredPacketHandler.Valid;
      hide DeferredPacketHandler.State;
      ghost var r := State();
      var mask := Mask(params);
      hide ParamsOk;
      ReportSized(report);
      hide Report.Valid;
      hide Flag;
      hide EmitIf;
      hide Comm.State;
      hide Mask;
      EndSized();
      hide WellSized;
      SendIf(Flag(mask, 1), report.system);
      SendIf(Flag(mask, 2), report.joint0);
      SendIf(Flag(mask, 2), report.joint1);
      SendIf(Flag(mask, 4), report.drive);
      SendIf(Flag(mask, 8) && report.sonarReady, report.sonar);
      SendIf(report.hasMessage, report.message);
      SendIf(true, [END_EPOCH, 4, 0, 0]);
    }

    method SendIf(due: bool, p: Packet)
      requires handler.Valid() && WellSized(p)
      modifies this`sent, this`txPackets, this`txPacketErrors, handler.base`txEnd, handler.base`txSize
      modifies handler.base.txBuffer
      ensures handler.Valid() && handler.State() == old(handler.State())
      ensures State() == EmitIf(old(State()), due, p)
    {
      hide DeferredPacketHandler.Valid;
      hide DeferredPacketHandler.State;
      hide Emit;
      if due { var status := SendPacket(p); }
    }

    /** ++global_seq */
    method NextCycle()
      requires Valid()
      modifies this`globalSeq
      ensures Valid() && handler.State() == old(handler.State())
      ensures State() == old(State()).(globalSeq := NextSeq(old(State()).globalSeq))
    {
      hide DeferredPacketHandler.Valid;
      hide DeferredPacketHandler.State;
      globalSeq := NextSeq(globalSeq);
    }

    /** The pending packets leave the deferred handler. */
    method ProcessPending() returns (ps: seq<Packet>)
      requires Valid()
      modifies handler`infos, handler`pendingSize, handler`queue, handler`done
      ensures Valid() && State() == old(State())
      ensures handler.State() == ProcessStep(old(handler.State())) && ps == old(handler.State()).pending
    {
      hide DeferredPacketHandler.Valid;
      hide DeferredPacketHandler.State;
      ps := handler.ProcessPendingPackets();
    }

    /** The deferred actions, then the report under the mask that they leave. */
    method HandleAndReport(ps: seq<Packet>, joints: seq<uint8>, report: Report)
      requires Valid() && report.Valid() && AllSendable(ps) && |joints| == |ps|
      modifies this`params, this`echoed, this`sent, this`txPackets, this`txPacketErrors
      modifies handler.base`txEnd, handler.base`txSize, handler.base.txBuffer
      ensures Valid() && handler.State() == old(handler.State())
      ensures ParamsOk(HandleAll(old(State()), ps, joints).params)
      ensures var r1 := HandleAll(old(State()), ps, joints); State() == EmitReport(r1, Mask(r1.params), report)
    {
      hide DeferredPacketHandler.Valid;
      hide DeferredPacketHandler.State;
      hide EmitReport;
      hide HandleAll;
      hide Report.Valid;
      hide AllSendable;
      hide Mask;
      assert ParamsOk(State().params);
      hide ParamsOk;
      HandlePending(ps, joints);
      assert State().params == params;
      hide Comm.State;
      SendPeriodic(report);
    }

    /** The rest of a cycle, once its packets are known. */
    method RunCycle(ps: seq<Packet>, joints: seq<uint8>, report: Report) returns (written: seq<uint8>)
      requires Valid() && report.Valid() && AllSendable(ps) && |joints| == |ps|
      modifies this, handler.base`txStart, handler.base`txEnd, handler.base`txSize, handler.base.txBuffer
      ensures Valid() && handler.State() == old(handler.State())
      ensures (State(), written) == Cycle(old(State()), ps, joints, report)
    {
      hide DeferredPacketHandler.Valid;
      hide DeferredPacketHandler.State;
      hide EmitReport;
      hide HandleAll;
      hide Report.Valid;
      hide AllSendable;
      ghost var r0 := State().(globalSeq := NextSeq(State().globalSeq));
      ghost var r1 := HandleAll(r0, ps, joints);
      CycleIs(State(), ps, joints, report);
      hide ParamsOk;
      hide Cycle;
      hide Comm.State;
      hide Mask;
      hide NextSeq;
      NextCycle();
      HandleAndReport(ps, joints, report);
      written := FlushOutput();
    }

    /** Orazio_commHandle: read what has arrived, number the cycle, run the actions, report, end the epoch,
        send. `joints` is what Orazio_jointsInit answers during each action. */
    method CommHandle(line: seq<uint8>, joints: seq<uint8>, report: Report) returns (written: seq<uint8>)
      requires Valid() && report.Valid()
      requires var ps := DRun(TO_ROBOT, ROBOT_CAPS, handler.State(), BytesOf(line)).pending;
               AllSendable(ps) && |joints| == |ps|
      modifies this, handler`infos, handler`pendingSize, handler`queue, handler`done
      modifies handler.pendingPackets, handler.base, handler.base.txBuffer, handler.owner.Keys
      ensures Valid()
      ensures handler.State() == ProcessStep(DRun(TO_ROBOT, ROBOT_CAPS, old(handler.State()), BytesOf(line)))
      ensures var ps := DRun(TO_ROBOT, ROBOT_CAPS, old(handler.State()), BytesOf(line)).pending;
              (State(), written) == Cycle(old(State()), ps, joints, report)
    {
      hide DeferredPacketHandler.Valid;
      hide DeferredPacketHandler.State;
      hide DRun;
      hide Cycle;
      hide AllSendable;
      hide Report.Valid;
      FlushInput(line);
      var ps := ProcessPending();
      hide Comm.State;
      hide ParamsOk;
      written := RunCycle(ps, joints, report);
    }
  }

  function EmitIf(r: Robot, due: bool, p: Packet): Robot
    requires WellSized(p)
  {
    if due then Emit(r, p) else r
  }

  /** A packet whose size field is right. */
  predicate WellSized(p: Packet) { |p| >= 4 && p[1] as int == |p| }

  lemma {:induction false} EndSized()
    ensures WellSized([END_EPOCH, 4, 0, 0])
  {
  }

  lemma {:induction false} ReportSized(r: Report)
    requires r.Valid()
    ensures WellSized(r.system) && WellSized(r.joint0) && WellSized(r.joint1)
    ensures WellSized(r.drive) && WellSized(r.sonar) && WellSized(r.message)
  {
  }

  lemma {:induction false} EmitAllConcat(r: Robot, a: seq<Packet>, b: seq<Packet>)
    requires AtLeastHeaders(a) && AtLeastHeaders(b)
    ensures AtLeastHeaders(a + b) && EmitAll(r, a + b) == EmitAll(EmitAll(r, a), b)
    decreases |a|
  {
    hide Emit;
    if a == [] {
      assert a + b == b;
    } else {
      EmitAllConcat(Emit(r, a[0]), a[1..], b);
      assert (a + b)[1..] == a[1..] + b;
    }
  }

  lemma {:induction false} EmitOne(r: Robot, due: bool, p: Packet)
    requires WellSized(p)
    ensures EmitAll(r, if due then [p] else []) == EmitIf(r, due, p)
  {
    hide Emit;
    assert [p][1..] == [];
  }

  /** The periodic sends one after the other. */
  function EmitReport(r: Robot, mask: uint8, report: Report): Robot
    requires report.Valid()
  {
    ReportSized(report);
    var r1 := EmitIf(r, Flag(mask, 1), report.system);
    var r2 := EmitIf(r1, Flag(mask, 2), report.joint0);
    var r3 := EmitIf(r2, Flag(mask, 2), report.joint1);
    var r4 := EmitIf(r3, Flag(mask, 4), report.drive);
    var r5 := EmitIf(r4, Flag(mask, 8) && report.sonarReady, report.sonar);
    var r6 := EmitIf(r5, report.hasMessage, report.message);
    EmitIf(r6, true, [END_EPOCH, 4, 0, 0])
  }

  /** The cycle of Firmware, with its periodic sends one after the other. */
  lemma {:induction false} CycleIs(r: Robot, ps: seq<Packet>, joints: seq<uint8>, report: Report)
    requires AllSendable(ps) && ParamsOk(r.params) && |joints| == |ps| && report.Valid()
    ensures var r1 := HandleAll(r.(globalSeq := NextSeq(r.globalSeq)), ps, joints);
            && ParamsOk(r1.params)
            && var r2 := EmitReport(r1, Mask(r1.params), report);
               Cycle(r, ps, joints, report) == (r2.(ring := []), r2.ring)
  {
    var r1 := HandleAll(r.(globalSeq := NextSeq(r.globalSeq)), ps, joints);
    HandleAllOk(r.(globalSeq := NextSeq(r.globalSeq)), ps, joints);
    PeriodicPlain(Mask(r1.params), report);
    PeriodicParts(r1, Mask(r1.params), report);
    hide PeriodicSends;
    hide EmitReport;
    hide EmitAll;
    hide HandleAll;
  }

  lemma {:induction false} HeadersIf(due: bool, p: Packet)
    requires |p| >= 4
    ensures AtLeastHeaders(if due then [p] else [])
  {
  }

  lemma {:induction false} PeriodicParts(r: Robot, mask: uint8, report: Report)
    requires report.Valid() && AtLeastHeaders(PeriodicSends(mask, report))
    ensures EmitAll(r, PeriodicSends(mask, report)) == EmitReport(r, mask, report)
  {
    ReportSized(report);
    hide Report.Valid;
    hide EmitIf;
    hide EmitAll;
    hide Emit;
    hide Flag;
    var a := if Flag(mask, 1) then [report.system] else [];
    var b := if Flag(mask, 2) then [report.joint0, report.joint1] else [];
    var c := if Flag(mask, 4) then [report.drive] else [];
    var d := if Flag(mask, 8) && report.sonarReady then [report.sonar] else [];
    var e := if report.hasMessage then [report.message] else [];
    HeadersIf(Flag(mask, 1), report.system);
    HeadersIf(Flag(mask, 4), report.drive);
    HeadersIf(Flag(mask, 8) && report.sonarReady, report.sonar);
    HeadersIf(report.hasMessage, report.message);
    EmitOne(r, Flag(mask, 1), report.system);
    EmitTwo(EmitAll(r, a), Flag(mask, 2), report.joint0, report.joint1);
    var r3 := EmitAll(EmitAll(r, a), b);
    EmitOne(r3, Flag(mask, 4), report.drive);
    EmitOne(EmitAll(r3, c), Flag(mask, 8) && report.sonarReady, report.sonar);
    var r5 := EmitAll(EmitAll(r3, c), d);
    EmitOne(r5, report.hasMessage, report.message);
    EmitOne(EmitAll(r5, e), true, [END_EPOCH, 4, 0, 0]);
    SixEmits(r, a, b, c, d, e, [[END_EPOCH, 4, 0, 0]]);
  }

  lemma {:induction false} SixEmits(r: Robot, a: seq<Packet>, b: seq<Packet>, c: seq<Packet>, d: seq<Packet>,
                                    e: seq<Packet>, f: seq<Packet>)
    requires AtLeastHeaders(a) && AtLeastHeaders(b) && AtLeastHeaders(c)
    requires AtLeastHeaders(d) && AtLeastHeaders(e) && AtLeastHeaders(f)
    ensures AtLeastHeaders(a + b + c + d + e + f)
    ensures EmitAll(r, a + b + c + d + e + f) ==
            EmitAll(EmitAll(EmitAll(EmitAll(EmitAll(EmitAll(r, a), b), c), d), e), f)
  {
    hide EmitAll;
    hide AtLeastHeaders;
    EmitAllConcat(r, a, b);
    EmitAllConcat(r, a + b, c);
    EmitAllConcat(r, a + b + c, d);
    EmitAllConcat(r, a + b + c + d, e);
    EmitAllConcat(r, a + b + c + d + e, f);
  }

  lemma {:induction false} EmitTwo(r: Robot, due: bool, p: Packet, q: Packet)
    requires WellSized(p) && WellSized(q)
    ensures AtLeastHeaders(if due then [p, q] else [])
    ensures EmitAll(r, if due then [p, q] else []) == EmitIf(EmitIf(r, due, p), due, q)
  {
    hide Emit;
    if due {
      assert [p, q] == [p] + [q];
      EmitAllConcat(r, [p], [q]);
      EmitOne(r, true, p);
      EmitOne(Emit(r, p), true, q);
    }
  }

  /** The status codes below zero. */
  predicate Negative(s: Status) {
    s.UnknownType? || s.RxBufferError? || s.InvalidSize? || s.ChecksumError? || s.Unsync? || s.TypeOutOfBounds? ||
    s.InstallError? || s.UninstallError? || s.TxBufferFull? || s.Timeout? || s.GenericError?
  }

  lemma {:induction false} NextByte(s: Deferred.State, line: seq<uint8>, i: nat)
    requires i < |line|
    ensures var e := DRun(TO_ROBOT, ROBOT_CAPS, s, BytesOf(line[..i]));
            && DRun(TO_ROBOT, ROBOT_CAPS, s, BytesOf(line[..i + 1])) == ByteStep(TO_ROBOT, ROBOT_CAPS, e, line[i])
            && Arrivals(TO_ROBOT, ROBOT_CAPS, s, BytesOf(line[..i + 1])) ==
               Arrivals(TO_ROBOT, ROBOT_CAPS, s, BytesOf(line[..i])) + Arrived(TO_ROBOT, ROBOT_CAPS, e, Byte(line[i]))
            && Failures(s, line[..i + 1]) == Failures(s, line[..i]) + Failed(e, line[i])
  {
    hide ByteStep;
    hide Arrived;
    hide Failed;
    assert BytesOf(line[..i + 1]) == BytesOf(line[..i]) + [Byte(line[i])];
    DRunConcat(TO_ROBOT, ROBOT_CAPS, s, BytesOf(line[..i]), [Byte(line[i])]);
    ArrivalsConcat(TO_ROBOT, ROBOT_CAPS, s, BytesOf(line[..i]), [Byte(line[i])]);
    OneEvent(DRun(TO_ROBOT, ROBOT_CAPS, s, BytesOf(line[..i])), Byte(line[i]));
    assert line[..i + 1][..i] == line[..i];
  }

  /** Whether a byte counts as an error. */
  function Failed(s: Deferred.State, c: uint8): nat {
    if Negative(Step(TO_ROBOT, s.rx, InputOf(ROBOT_CAPS, s, c)).1) then 1 else 0
  }

  /** The errors among some bytes: each one that is answered with a status below zero, also while idle. */
  function Failures(s: Deferred.State, line: seq<uint8>): nat {
    if line == [] then 0
    else
      var n := |line| - 1;
      Failures(s, line[..n]) + Failed(DRun(TO_ROBOT, ROBOT_CAPS, s, BytesOf(line[..n])), line[n])
  }

  lemma {:induction false} OneEvent(s: Deferred.State, e: Event)
    ensures DRun(TO_ROBOT, ROBOT_CAPS, s, [e]) == DStep(TO_ROBOT, ROBOT_CAPS, s, e)
    ensures Arrivals(TO_ROBOT, ROBOT_CAPS, s, [e]) == Arrived(TO_ROBOT, ROBOT_CAPS, s, e)
  {
    hide DStep;
    hide Arrived;
    assert [e][1..] == [];
    assert Arrived(TO_ROBOT, ROBOT_CAPS, s, e) + [] == Arrived(TO_ROBOT, ROBOT_CAPS, s, e);
  }

  lemma {:induction false} OneArrival(s: Deferred.State, c: uint8)
    ensures |Arrived(TO_ROBOT, ROBOT_CAPS, s, Byte(c))| ==
            if Step(TO_ROBOT, s.rx, InputOf(ROBOT_CAPS, s, c)).1 == SyncChecksum then 1 else 0
  {
    DeliveryIsSyncChecksum(TO_ROBOT, s.rx, InputOf(ROBOT_CAPS, s, c));
  }
}
