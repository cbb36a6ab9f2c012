/** orazio.c and its companions, on the objects they change: the joints, the drive and the variables of the
    main loop. */
module MainLoop {
  import opened Words
  import opened Watchdog
  import Joints
  import Drives

  class Platform {
    // system_params, system_status
    var watchdogCycles: Word
    var watchdogCount: Short
    var rxPackets: Word
    var previousRx: Word
    var commCycles: Word
    // drive_status, drive_control
    var enabled: bool
    var lastDriveControlSeq: Word
    var driveControlSeq: Word
    // orazio.c
    var tickCounter: uint8
    var commHandle: bool
    var open: bool  // a communication cycle is under way

    const joints: seq<Joints.JointController>
    const leftIndex: nat
    const rightIndex: nat
    const drive: Drives.DifferentialDriveController

    ghost predicate Valid()
      reads this, drive
    {
      && |joints| == 2 && joints[0] != joints[1] && leftIndex < 2 && rightIndex < 2
      && drive.left == joints[leftIndex] && drive.right == joints[rightIndex]
      && drive.Valid()
    }

    /** One joint with its parameters and command. */
    function UnitOf(j: Joints.JointController): Unit
      reads j
    {
      Unit(j.params, j.control, j.State())
    }

    function Units(): (us: seq<Unit>)
      reads this, joints
    {
      seq(|joints|, i requires 0 <= i < |joints| reads joints => UnitOf(joints[i]))
    }

    function State(): Board
      reads this, joints
    {
      Board(watchdogCycles, watchdogCount, rxPackets, previousRx, open, enabled,
            lastDriveControlSeq, driveControlSeq, leftIndex, rightIndex, Units())
    }

    constructor (joints: seq<Joints.JointController>, leftIndex: nat, rightIndex: nat,
                 drive: Drives.DifferentialDriveController, watchdogCycles: Word, commCycles: Word)
      requires |joints| == 2 && joints[0] != joints[1] && leftIndex < 2 && rightIndex < 2
      requires drive.left == joints[leftIndex] && drive.right == joints[rightIndex] && drive.Valid()
      ensures Valid() && this.joints == joints && this.drive == drive
      ensures this.leftIndex == leftIndex && this.rightIndex == rightIndex
      ensures State() == Board(watchdogCycles, ToShort(watchdogCycles), 0, 0, false, false, 0, 0, leftIndex, rightIndex,
                                     Units())
      ensures tickCounter == Reload(commCycles) && this.commCycles == commCycles && !commHandle
    {
      this.joints, this.leftIndex, this.rightIndex, this.drive := joints, leftIndex, rightIndex, drive;
      this.watchdogCycles, watchdogCount, this.commCycles := watchdogCycles, ToShort(watchdogCycles), commCycles;
      rxPackets, previousRx, enabled, lastDriveControlSeq, driveControlSeq := 0, 0, false, 0, 0;
      tickCounter, commHandle, open := Reload(commCycles), false, false;
    }

    method JointsHandle(encoders: seq<Word>)
      requires Valid() && |encoders| == 2
      modifies joints
      ensures Units() == TickAll(old(Units()), encoders)
    {
      hide Joints.Tick;
      for i := 0 to 2
        invariant forall k | 0 <= k < i :: UnitOf(joints[k]) == TickUnit(old(UnitOf(joints[k])), encoders[k])
        invariant forall k | i <= k < 2 :: UnitOf(joints[k]) == old(UnitOf(joints[k]))
      {
        joints[i].Handle(encoders[i]);
      }
    }

    method JointsDisable()
      requires Valid()
      modifies joints
      ensures Units() == DisableAll(old(Units()))
    {
      for i := 0 to 2
        invariant forall k | 0 <= k < i :: UnitOf(joints[k]) == DisableUnit(old(UnitOf(joints[k])))
        invariant forall k | i <= k < 2 :: UnitOf(joints[k]) == old(UnitOf(joints[k]))
      {
        joints[i].control := joints[i].control.(mode := Joints.DISABLED);
        joints[i].output := 0;
      }
    }

    /** Clears the controllers, until a bridge refuses its pins. */
    method JointsInit(bridges: Bridges) returns (ok: bool)
      requires Valid()
      modifies joints
      ensures Units() == ResetFirst(old(Units()), Cleared(bridges))
      ensures ok <==> forall i | 0 <= i < 2 :: bridges[i]
    {
      for i := 0 to 2
        invariant forall k | 0 <= k < i :: bridges[k]
        invariant forall k | 0 <= k < i :: UnitOf(joints[k]) == ResetUnit(old(UnitOf(joints[k])))
        invariant forall k | i <= k < 2 :: UnitOf(joints[k]) == old(UnitOf(joints[k]))
      {
        joints[i].Reset();
        if !bridges[i] { return false; }
      }
      ok := true;
    }

    method OnTimerTick(encoders: seq<Word>)
      requires Valid() && |encoders| == 2
      modifies joints, this`tickCounter, this`commHandle
      ensures Valid() && State() == Step(old(State()), Timer(encoders))
      ensures tickCounter ==
              if TickCounter(old(tickCounter)) == 0 then Reload(commCycles) else TickCounter(old(tickCounter))
      ensures commHandle <==> old(commHandle) || TickCounter(old(tickCounter)) == 0
    {
      hide TickAll;
      JointsHandle(encoders);
      tickCounter := TickCounter(tickCounter);
      if tickCounter == 0 {
        tickCounter := Reload(commCycles);
        commHandle := true;
      }
    }

    method WatchdogReset()
      requires Valid()
      modifies this`watchdogCount
      ensures Valid() && State() == old(State()).(count := ToShort(watchdogCycles))
    {
      watchdogCount := ToShort(watchdogCycles);
    }

    method HandleWatchdog()
      requires Valid()
      modifies joints, this`watchdogCount, this`enabled
      ensures Valid() && State() == WatchdogHandle(old(State()))
    {
      hide DisableAll;
      if watchdogCycles == 0 {
        watchdogCount := ToShort(watchdogCycles);
        return;
      }
      if watchdogCount > 0 { watchdogCount := watchdogCount - 1; }
      if watchdogCount == 0 {
        enabled := false;
        JointsDisable();
      }
    }

    /** The speeds the drive commands. */
    function LeftSpeed(): Short
      reads drive
    {
      Commands(Drives.LeftSpeed(drive.params, drive.jointsDt, drive.status.adjusted))
    }

    function RightSpeed(): Short
      reads drive
    {
      Commands(Drives.RightSpeed(drive.params, drive.jointsDt, drive.status.adjusted))
    }

    /** The drive is on, or about to be switched on. */
    predicate Driving()
      reads this
    {
      enabled || lastDriveControlSeq != driveControlSeq
    }

    method ControlDrive()
      requires Valid() && (Driving() ==> Drives.Representable(drive.params, drive.jointsDt, drive.status.adjusted))
      modifies joints, this`enabled, this`lastDriveControlSeq
      ensures Valid() && State() == DriveControl(old(State()), old(LeftSpeed()), old(RightSpeed()))
      ensures enabled <==> old(enabled) || old(lastDriveControlSeq) != driveControlSeq
      ensures enabled ==> joints[rightIndex].control == Joints.Control(old(RightSpeed()), 2)
      ensures enabled && leftIndex != rightIndex ==>
                joints[leftIndex].control == Joints.Control(old(LeftSpeed()), 2)
      ensures !enabled ==> Units() == old(Units())
    {
      hide Drives.Trunc;
      hide Drives.LeftSpeed;
      hide Drives.RightSpeed;
      if lastDriveControlSeq != driveControlSeq {
        enabled := true;
        lastDriveControlSeq := driveControlSeq;
      }
      if enabled {
        drive.Control();
        assert Units() == Command(old(Units()), leftIndex, rightIndex, old(LeftSpeed()), old(RightSpeed()));
      }
    }

    method CommandJoint(i: nat, control: Joints.Control)
      requires Valid() && i < 2
      modifies joints
      ensures Units() == old(Units())[i := old(Units())[i].(control := control)]
    {
      joints[i].control := control;
    }

    /** A packet is accepted and handled. */
    method Receive(effect: Effect)
      requires Valid() && open
      modifies this`rxPackets, this`driveControlSeq, this`enabled, this`lastDriveControlSeq, joints, drive
      ensures Valid() && State() == Step(old(State()), Event.Receive(effect))
      ensures drive.control == if effect.DriveCommand? then effect.velocities else old(drive.control)
      ensures drive.State() == if effect.DriveReset? then old(drive.Initial()) else old(drive.State())
    {
      hide ResetFirst;
      rxPackets := ToWord(rxPackets + 1);
      match effect {
        case DriveCommand(s, v) =>
          driveControlSeq := s;
          drive.control := v;
        case JointCommand(i, c) =>
          if i < 2 {
            enabled := false;
            CommandJoint(i, c);
          }
        case DriveReset =>
          lastDriveControlSeq := driveControlSeq;
          drive.Reset();
        case JointsReset(bridges) =>
          var ok := JointsInit(bridges);
        case Other =>
      }
    }

    /** The packets of a cycle. */
    method ReceiveAll(effects: seq<Effect>)
      requires Valid() && open
      modifies this`rxPackets, this`driveControlSeq, this`enabled, this`lastDriveControlSeq, joints, drive
      ensures Valid() && Legal(old(State()), Receipts(effects)) && State() == Run(old(State()), Receipts(effects))
    {
      hide Step;
      for i := 0 to |effects|
        invariant Valid() && open
        invariant Legal(old(State()), Receipts(effects[..i])) && State() == Run(old(State()), Receipts(effects[..i]))
      {
        ghost var before := State();
        Receive(effects[i]);
        ReceiptsSnoc(old(State()), effects[..i], effects[i]);
        assert effects[..i + 1] == effects[..i] + [effects[i]];
      }
      assert effects[..|effects|] == effects;
    }

    /** The velocities that the coming update will command. */
    ghost function Commanded(): Drives.Command
      requires drive.params.Usable() && drive.dt > 0.0
      reads this, drive, drive.left, drive.right
    {
      Drives.Updated(drive.params, drive.dt, drive.control, drive.left.encoderPosition, drive.right.encoderPosition,
                     drive.State()).status.adjusted
    }

    /** Update and control of the drive. A drive that is on must command speeds that an int16 can hold; converting
        others is undefined in C. */
    method StartCycle()
      requires Valid() && commHandle && !open
      requires Driving() ==> Drives.Representable(drive.params, drive.jointsDt, Commanded())
      modifies this`previousRx, this`open, this`enabled, this`lastDriveControlSeq, joints, drive
      ensures Valid()
      ensures State() == Step(old(State()), StartEvent(old(drive.params), old(drive.jointsDt), old(Commanded())))
      ensures drive.State() == old(Drives.Updated(drive.params, drive.dt, drive.control, drive.left.encoderPosition,
                                                  drive.right.encoderPosition, drive.State()))
    {
      hide DriveControl;
      hide Drives.Adjust;
      hide Drives.Measure;
      hide Drives.LeftSpeed;
      hide Drives.RightSpeed;
      hide Drives.Trunc;
      open, previousRx := true, rxPackets;
      drive.Update();
      assert Units() == old(Units());
      assert State() == old(State()).(open := true, previousRx := rxPackets);
      assert drive.status.adjusted == old(Commanded());
      ControlDrive();
    }

    /** With parameters that are gentle, every commanded speed can be held. */
    lemma {:induction false} CommandedFits()
      requires Valid()
      requires drive.params.Limits() && drive.jointsDt > 0.0 && Drives.Gentle(drive.params, drive.jointsDt, 1)
      ensures Drives.Representable(drive.params, drive.jointsDt, Commanded())
    {
      hide Drives.Measure;
      var d := Drives.Updated(drive.params, drive.dt, drive.control, drive.left.encoderPosition,
                              drive.right.encoderPosition, drive.State());
      Drives.AdjustInLimits(drive.params, drive.dt, drive.control, d.status.measured);
      hide Drives.Adjust;
      AdjustedFits(drive.params, drive.jointsDt, Commanded());
    }

    /** The watchdog. */
    method FinishCycle()
      requires Valid() && open
      modifies joints, this`watchdogCount, this`enabled, this`open, this`commHandle
      ensures Valid() && !commHandle && State() == Step(old(State()), Finish)
    {
      hide WatchdogHandle;
      if previousRx != rxPackets { WatchdogReset(); }
      HandleWatchdog();
      open, commHandle := false, false;
    }

    /** The joints of the drive are commanded the velocities v, as PID speeds. */
    predicate Wheels(p: Drives.Params, jointsDt: real, v: Drives.Command)
      requires Valid()
      reads this, drive, joints
    {
      && joints[leftIndex].control.mode == 2 && joints[rightIndex].control.mode == 2
      && joints[leftIndex].control.speed == Drives.Trunc(Drives.LeftSpeed(p, jointsDt, v))
      && joints[rightIndex].control.speed == Drives.Trunc(Drives.RightSpeed(p, jointsDt, v))
    }

    /** The communication cycle of the main loop. If the drive is on after it, its joints are commanded the velocities
        that the drive had adjusted at its start, in the first cycle of a drive command and in all others. */
    method Cycle(effects: seq<Effect>)
      requires Valid() && commHandle && !open
      requires Driving() ==> Drives.Representable(drive.params, drive.jointsDt, Commanded())
      modifies this`previousRx, this`open, this`rxPackets, this`driveControlSeq, this`enabled, this`lastDriveControlSeq,
               this`watchdogCount, this`commHandle, joints, drive
      ensures Valid() && !commHandle
      ensures var start := StartEvent(old(drive.params), old(drive.jointsDt), old(Commanded()));
              var es := [start] + Receipts(effects) + [Finish];
              Legal(old(State()), es) && State() == Run(old(State()), es)
      ensures enabled && leftIndex != rightIndex ==> Wheels(old(drive.params), old(drive.jointsDt), old(Commanded()))
    {
      hide Step;
      hide Run;
      hide Legal;
      hide Drives.Representable;
      hide Drives.Updated;
      hide Drives.Trunc;
      hide Drives.LeftSpeed;
      hide Drives.RightSpeed;
      ghost var b0, p, dt, v := State(), drive.params, drive.jointsDt, Commanded();
      StartCycle();
      ghost var b1 := State();
      StartOpens(b0, StartEvent(p, dt, v));
      ReceiveAll(effects);
      ReceiptsStayOpen(b1, effects);
      FinishCycle();
      CycleIsRun(b0, StartEvent(p, dt, v), effects);
      if enabled && leftIndex != rightIndex {
        CycleCommands(b0, StartEvent(p, dt, v), effects);
        StartSpeeds(p, dt, v);
      }
    }
  }

  /** A drive that is on after a cycle was on, or had a new command, at its start, and its joints have the speeds. */
  lemma {:induction false} CycleCommands(b: Board, start: Event, effects: seq<Effect>)
    requires b.Valid() && b.left != b.right && start.Start? && Possible(b, start)
    requires Legal(b, [start] + Receipts(effects) + [Finish])
    ensures var end := Run(b, [start] + Receipts(effects) + [Finish]);
            end.enabled ==>
              UnderSpeeds(end, start.leftSpeed, start.rightSpeed) && (b.enabled || b.lastSeq != b.driveSeq)
  {
    var rest := Receipts(effects) + [Finish];
    assert [] + [start] + rest == [start] + Receipts(effects) + [Finish] == [start] + rest;
    NoStarts(rest);
    OnMeansCommanded(b, [], start.leftSpeed, start.rightSpeed, rest);
    RunConcat(b, [start], rest);
    OneStep(b, start);
    StartEnables(b, start.leftSpeed, start.rightSpeed);
    BetweenStarts(Run(b, [start]), rest);
  }

  lemma {:induction false} NoStarts(es: seq<Event>)
    requires forall i | 0 <= i < |es| :: !es[i].Start?
    ensures Starts(es) == 0
    decreases |es|
  {
    if es != [] { NoStarts(es[1..]); }
  }

  lemma {:induction false} StartOpens(b: Board, e: Event)
    requires b.Valid() && e.Start? && Possible(b, e)
    ensures Step(b, e).open
  {
  }

  lemma {:induction false} ReceiptsStayOpen(b: Board, effects: seq<Effect>)
    requires b.Valid() && b.open
    ensures Legal(b, Receipts(effects)) && Run(b, Receipts(effects)).open
    decreases |effects|
  {
    if effects != [] {
      var es := Receipts(effects);
      assert es[1..] == Receipts(effects[1..]);
      OpenStays(b, es[0]);
      hide Step;
      ReceiptsStayOpen(Step(b, es[0]), effects[1..]);
    }
  }

  lemma {:induction false} OpenStays(b: Board, e: Event)
    requires b.Valid() && b.open && e.Receive?
    ensures Step(b, e).open
  {
  }

  lemma {:induction false} CycleIsRun(b: Board, start: Event, effects: seq<Effect>)
    requires b.Valid() && start.Start? && Possible(b, start)
    ensures var es := [start] + Receipts(effects) + [Finish];
            && Legal(b, es) && Legal(Step(b, start), Receipts(effects)) && Run(Step(b, start), Receipts(effects)).open
            && Run(b, es) == Step(Run(Step(b, start), Receipts(effects)), Finish)
  {
    StartOpens(b, start);
    hide Step;
    OneStep(b, start);
    ReceiptsStayOpen(Step(b, start), effects);
    RunConcat(b, [start], Receipts(effects));
    RunConcat(b, [start] + Receipts(effects), [Finish]);
    OneStep(Run(b, [start] + Receipts(effects)), Finish);
  }

  /** A commanded speed as an int16; 0 stands for one that no int16 can hold, which only a drive that is off has. */
  function Commands(speed: real): Short {
    if FitsShort(Drives.Trunc(speed)) then Drives.Trunc(speed) else 0
  }

  lemma {:induction false} StartSpeeds(p: Drives.Params, jointsDt: real, v: Drives.Command)
    requires Drives.Representable(p, jointsDt, v)
    ensures StartEvent(p, jointsDt, v).leftSpeed == Drives.Trunc(Drives.LeftSpeed(p, jointsDt, v))
    ensures StartEvent(p, jointsDt, v).rightSpeed == Drives.Trunc(Drives.RightSpeed(p, jointsDt, v))
  {
    hide Drives.Trunc;
    hide Drives.LeftSpeed;
    hide Drives.RightSpeed;
  }

  /** The start of a cycle in which the drive would command velocity v. */
  function StartEvent(p: Drives.Params, jointsDt: real, v: Drives.Command): Event {
    Start(Commands(Drives.LeftSpeed(p, jointsDt, v)), Commands(Drives.RightSpeed(p, jointsDt, v)))
  }

  function Receipts(effects: seq<Effect>): (es: seq<Event>)
    ensures |es| == |effects| && forall i | 0 <= i < |es| :: es[i] == Event.Receive(effects[i])
  {
    seq(|effects|, i requires 0 <= i < |effects| => Event.Receive(effects[i]))
  }

  lemma {:induction false} ReceiptsSnoc(b: Board, effects: seq<Effect>, effect: Effect)
    requires b.Valid() && Legal(b, Receipts(effects)) && Run(b, Receipts(effects)).open
    ensures Legal(b, Receipts(effects + [effect]))
    ensures Run(b, Receipts(effects + [effect])) == Step(Run(b, Receipts(effects)), Event.Receive(effect))
  {
    hide Step;
    assert Receipts(effects + [effect]) == Receipts(effects) + [Event.Receive(effect)];
    RunConcat(b, Receipts(effects), [Event.Receive(effect)]);
    OneStep(Run(b, Receipts(effects)), Event.Receive(effect));
  }

  lemma {:induction false} OneStep(b: Board, e: Event)
    requires b.Valid() && Possible(b, e)
    ensures Legal(b, [e]) && Run(b, [e]) == Step(b, e)
  {
    assert Run(b, [e]) == Run(Step(b, e), []);
  }

  /** Within the limits, the drive can command every velocity. */
  lemma {:induction false} AdjustedFits(p: Drives.Params, jointsDt: real, v: Drives.Command)
    requires p.Limits() && jointsDt > 0.0 && Drives.Gentle(p, jointsDt, 1) && Drives.InLimits(p, v)
    ensures Drives.Representable(p, jointsDt, v)
  {
    Drives.WheelFits(p, jointsDt, 1, v, p.ikl, Drives.LeftSpeed(p, jointsDt, v));
    Drives.WheelFits(p, jointsDt, 1, v, p.ikr, Drives.RightSpeed(p, jointsDt, v));
  }
}
