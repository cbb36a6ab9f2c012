/** Protocol and main loop joined: what the packets of a communication cycle do to the board, and what the
    watchdog hears of them. */
module Reception {
  import opened Words
  import opened Packets
  import opened Deferred
  import opened Messages
  import opened Firmware
  import Joints
  import Drives
  import Watchdog
  import MainLoop

  /** What the packets do not tell: the two floats of a drive command as velocities, and whether the bridges
      accept their pins. */
  datatype Outside = Outside(velocities: Drives.Command, bridges: Watchdog.Bridges)

  /** What handling p does to drive and joints. */
  function EffectOf(p: Packet, o: Outside): Watchdog.Effect
    requires Sendable(p)
  {
    if p[0] == DRIVE_CONTROL then Watchdog.DriveCommand(SeqOf(p), o.velocities)
    else if p[0] == JOINT_CONTROL then
      Watchdog.JointCommand(p[4] as nat, Joints.Control(ToShort(p[5] as int + 256 * p[6] as int), p[7]))
    else if p[0] == DRIVE_PARAM || p[0] == SYSTEM_PARAM then Watchdog.DriveReset
    else if p[0] == JOINT_PARAM && p[4] < NUM_JOINTS then Watchdog.JointsReset(o.bridges)
    else if p[0] == PARAM_CONTROL && p[4] == 1 then LoadEffect(p[5], o.bridges)
    else Watchdog.Other
  }

  /** Orazio_paramSet after a load. */
  function LoadEffect(paramType: uint8, bridges: Watchdog.Bridges): Watchdog.Effect {
    if paramType == 0 || paramType == 2 then Watchdog.DriveReset
    else if paramType == 1 then Watchdog.JointsReset(bridges)
    else Watchdog.Other
  }

  /** A joint control packet as the host packs it: the speed as two bytes, the low one first, then the mode. */
  function JointPacket(seqNo: Seq16, index: uint8, c: Joints.Control): (p: Packet)
    ensures |p| == 8
  {
    var w := ToWord(c.speed);
    WithSeq([JOINT_CONTROL, 8, 0, 0, index, (w % 256) as uint8, (w / 256) as uint8, c.mode], seqNo)
  }

  /** Round trip: the command that the host packed reaches the joint. */
  lemma {:induction false} JointCommandArrives(seqNo: Seq16, index: uint8, c: Joints.Control, o: Outside)
    requires index < 128
    ensures Sendable(JointPacket(seqNo, index, c))
    ensures EffectOf(JointPacket(seqNo, index, c), o) == Watchdog.JointCommand(index as nat, c)
  {
    var w := ToWord(c.speed);
    assert ToShort(w % 256 + 256 * (w / 256)) == c.speed;
  }

  /** Which packets do what. The drive is commanded by packets of type 8 and reinitialised by types 3 and 9 and by
      loading code 0 or 2; a joint is commanded by type 5; the joints are reinitialised by type 6 with a valid index
      and by loading code 1. Nothing else touches drive or joints. */
  lemma {:induction false} EffectIs(p: Packet, o: Outside)
    requires Sendable(p)
    ensures var e := EffectOf(p, o);
            && (e.DriveCommand? <==> p[0] == 8)
            && (e.DriveCommand? ==> e.seqNo == p[2] as int + 256 * p[3] as int && e.velocities == o.velocities)
            && (e.JointCommand? <==> p[0] == 5) && (e.JointCommand? ==> e.index == p[4] as int)
            && (e.DriveReset? <==> p[0] == 3 || p[0] == 9 || (p[0] == 1 && p[4] == 1 && (p[5] == 0 || p[5] == 2)))
            && (e.JointsReset? <==> (p[0] == 6 && p[4] < 2) || (p[0] == 1 && p[4] == 1 && p[5] == 1))
            && (e.JointsReset? ==> e.bridges == o.bridges)
  {
  }

  /** The effects of the packets that are handled, then one without effect for each that was dropped. */
  function Effects(ps: seq<Packet>, dropped: nat, o: Outside): (es: seq<Watchdog.Effect>)
    requires AllSendable(ps)
    ensures |es| == |ps| + dropped
  {
    seq(|ps|, i requires 0 <= i < |ps| => EffectOf(ps[i], o)) + seq(dropped, i => Watchdog.Other)
  }

  const COMMAND_KEY := Key(DRIVE_CONTROL, 0)

  /** drive_control is one variable: the number that the arbitration looks at is that of the stored packet. */
  ghost predicate SameCommand(s: Params, driveSeq: Word) {
    COMMAND_KEY in s.vars && |s.vars[COMMAND_KEY]| >= 4 && SeqOf(s.vars[COMMAND_KEY]) == driveSeq
  }

  lemma {:induction false} HandleCommand(r: Robot, b: Watchdog.Board, p: Packet, joints: uint8, o: Outside)
    requires Sendable(p) && ParamsOk(r.params) && b.Valid() && SameCommand(r.params, b.driveSeq)
    ensures SameCommand(HandleOne(r, p, joints).params, Watchdog.Apply(b, EffectOf(p, o)).driveSeq)
  {
    CommandAfter(r, p, joints);
    hide HandleOne;
    hide ParamsOk;
  }

  /** Handling changes the stored drive command if and only if it is one. */
  lemma {:induction false} CommandAfter(r: Robot, p: Packet, joints: uint8)
    requires Sendable(p) && ParamsOk(r.params) && COMMAND_KEY in r.params.vars
    ensures COMMAND_KEY in HandleOne(r, p, joints).params.vars
    ensures HandleOne(r, p, joints).params.vars[COMMAND_KEY] ==
            if p[0] == DRIVE_CONTROL then p else r.params.vars[COMMAND_KEY]
  {
    hide Frame;
    HandleOk(r.params, p, joints);
    EchoFits(r.params, p, joints);
    hide ParamsOk;
  }

  /** Handling the packets of a cycle and applying their effects keep the two views of the last drive command the
      same. */
  lemma {:induction false} HandleCommands(r: Robot, b: Watchdog.Board, ps: seq<Packet>, joints: seq<uint8>,
                                          o: Outside)
    requires AllSendable(ps) && ParamsOk(r.params) && |joints| == |ps| && b.Valid() && b.open
    requires SameCommand(r.params, b.driveSeq)
    ensures var es := MainLoop.Receipts(Effects(ps, 0, o));
            && Watchdog.Legal(b, es)
            && SameCommand(HandleAll(r, ps, joints).params, Watchdog.Run(b, es).driveSeq) && Watchdog.Run(b, es).open
    decreases |ps|
  {
    var es := MainLoop.Receipts(Effects(ps, 0, o));
    if ps != [] {
      HandleOneOk(r, ps[0], joints[0]);
      HandleCommand(r, b, ps[0], joints[0], o);
      ReceiveIsApply(b, EffectOf(ps[0], o));
      assert es[0] == Watchdog.Receive(EffectOf(ps[0], o));
      assert es[1..] == MainLoop.Receipts(Effects(ps[1..], 0, o));
      hide HandleOne;
      hide Watchdog.Step;
      hide EffectOf;
      hide SameCommand;
      hide ParamsOk;
      HandleCommands(HandleOne(r, ps[0], joints[0]), Watchdog.Step(b, es[0]), ps[1..], joints[1..], o);
    }
  }

  lemma {:induction false} ReceiveIsApply(b: Watchdog.Board, e: Watchdog.Effect)
    requires b.Valid() && b.open
    ensures Watchdog.Possible(b, Watchdog.Receive(e)) && Watchdog.Step(b, Watchdog.Receive(e)).open
    ensures Watchdog.Step(b, Watchdog.Receive(e)).driveSeq == Watchdog.Apply(b, e).driveSeq
  {
  }

  // ---------------------------------------------------------------- what the watchdog hears

  lemma {:induction false} FewArrivals(s: State, es: seq<Event>)
    ensures |Arrivals(TO_ROBOT, ROBOT_CAPS, s, es)| <= |es|
    decreases |es|
  {
    hide DStep;
    hide Arrived;
    if es != [] { FewArrivals(DStep(TO_ROBOT, ROBOT_CAPS, s, es[0]), es[1..]); }
  }

  /** Handled and dropped packets are together the arrivals of the cycle. */
  lemma {:induction false} ArrivalsCount(s: State, line: seq<uint8>)
    requires s.pending == []
    ensures var es := BytesOf(line);
            |Arrivals(TO_ROBOT, ROBOT_CAPS, s, es)| ==
            |DRun(TO_ROBOT, ROBOT_CAPS, s, es).pending| + |Dropped(TO_ROBOT, ROBOT_CAPS, s, es)|
  {
    var es := BytesOf(line);
    NothingLostTwice(TO_ROBOT, ROBOT_CAPS, s, es);
    BytesKeepDone(TO_ROBOT, ROBOT_CAPS, s, es);
    var e := DRun(TO_ROBOT, ROBOT_CAPS, s, es);
    var dropped, arrivals := Dropped(TO_ROBOT, ROBOT_CAPS, s, es), Arrivals(TO_ROBOT, ROBOT_CAPS, s, es);
    hide DRun;
    hide Dropped;
    hide Arrivals;
    assert s.done + s.pending == s.done;
    assert |multiset(e.done + e.pending) + multiset(dropped)| == |e.done + e.pending| + |dropped|;
    assert |multiset(s.done) + multiset(arrivals)| == |s.done| + |arrivals|;
  }

  lemma {:induction false} ReceiptsHeard(effects: seq<Watchdog.Effect>)
    ensures Watchdog.Heard(MainLoop.Receipts(effects)) == |effects| && Watchdog.Ends(MainLoop.Receipts(effects)) == 0
    decreases |effects|
  {
    if effects != [] {
      assert MainLoop.Receipts(effects)[1..] == MainLoop.Receipts(effects[1..]);
      ReceiptsHeard(effects[1..]);
    }
  }

  /** The count of packets grows by the packets with a valid checksum that arrive, be they handled or dropped; the
      watchdog hears the cycle if and only if they are no multiple of 65536 - with fewer bytes than that, if and
      only if there is one. */
  lemma {:induction false} CycleHeardIff(b: Watchdog.Board, s: State, line: seq<uint8>, o: Outside)
    requires b.Valid() && b.open && b.previousRx == b.rx && s.pending == []
    requires AllSendable(DRun(TO_ROBOT, ROBOT_CAPS, s, BytesOf(line)).pending)
    ensures var arrivals := Arrivals(TO_ROBOT, ROBOT_CAPS, s, BytesOf(line));
            var ps := DRun(TO_ROBOT, ROBOT_CAPS, s, BytesOf(line)).pending;
            var lost := |Dropped(TO_ROBOT, ROBOT_CAPS, s, BytesOf(line))|;
            var es := MainLoop.Receipts(Effects(ps, lost, o));
            && Watchdog.Legal(b, es)
            && Watchdog.Run(b, es).rx == ToWord(b.rx + |arrivals|)
            && (Watchdog.Run(b, es).previousRx != Watchdog.Run(b, es).rx <==> |arrivals| % 0x1_0000 != 0)
            && |arrivals| <= |line|
  {
    var events := BytesOf(line);
    var ps, lost := DRun(TO_ROBOT, ROBOT_CAPS, s, events).pending, |Dropped(TO_ROBOT, ROBOT_CAPS, s, events)|;
    ArrivalsCount(s, line);
    FewArrivals(s, events);
    hide DRun;
    hide Dropped;
    hide Arrivals;
    hide AllSendable;
    ReceiptsHeard(Effects(ps, lost, o));
    MainLoop.ReceiptsStayOpen(b, Effects(ps, lost, o));
    Watchdog.HeardSeen(b, MainLoop.Receipts(Effects(ps, lost, o)));
    hide Watchdog.Run;
    hide Watchdog.Legal;
    hide ToWord;
  }
}
