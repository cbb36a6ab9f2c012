/** The main loop (orazio.c) with its watchdog (orazio_watchdog.c) and the arbitration of the drive
    (orazio_drive.c, orazio_joints.c), as a machine whose steps the timer interrupt can interleave. */
module Watchdog {
  import opened Words
  import Joints
  import Drives

  /** joint_control[i] and joint_controllers[i]. */
  datatype Unit = Unit(params: Joints.Params, control: Joints.Control, joint: Joints.Joint)

  /** For each joint, whether its H-bridge accepts its pins. */
  type Bridges = b: seq<bool> | |b| == 2 witness [true, true]

  /** What a received packet does to the state of the board. */
  datatype Effect =
    | DriveCommand(seqNo: Word, velocities: Drives.Command) // drive_control is set
    | JointCommand(index: nat, control: Joints.Control)     // a joint is controlled directly: disables the drive
    | DriveReset                                            // drive or system parameters: Orazio_driveInit
    | JointsReset(bridges: Bridges)                         // joint parameters: Orazio_jointsInit
    | Other

  /** The state of the main loop; `open` while a communication cycle is under way. */
  datatype Board = Board(cycles: Word, count: Short, rx: Word, previousRx: Word, open: bool,
                         enabled: bool, lastSeq: Word, driveSeq: Word, left: nat, right: nat, units: seq<Unit>)
  {
    predicate Valid() { |units| == 2 && left < 2 && right < 2 }
  }

  /** A moment of the main loop, or the timer interrupt. */
  datatype Event =
    | Timer(encoders: seq<Word>)
    | Start(leftSpeed: Short, rightSpeed: Short)
    | Receive(effect: Effect)
    | Finish

  /** Orazio_jointsHandle. */
  function TickUnit(u: Unit, enc: Word): Unit { u.(joint := Joints.Tick(u.params, u.control, enc, u.joint)) }

  function TickAll(units: seq<Unit>, encoders: seq<Word>): (r: seq<Unit>)
    requires |units| == |encoders|
    ensures |r| == |units| && forall i | 0 <= i < |r| :: r[i] == TickUnit(units[i], encoders[i])
  {
    seq(|units|, i requires 0 <= i < |units| => TickUnit(units[i], encoders[i]))
  }

  /** Orazio_jointsDisable. */
  function DisableUnit(u: Unit): Unit {
    u.(control := u.control.(mode := Joints.DISABLED), joint := u.joint.(output := 0))
  }

  function DisableAll(units: seq<Unit>): (r: seq<Unit>)
    ensures |r| == |units| && forall i | 0 <= i < |r| :: r[i] == DisableUnit(units[i])
  {
    seq(|units|, i requires 0 <= i < |units| => DisableUnit(units[i]))
  }

  /** The velocities of the drive become speeds of its joints. */
  function Command(units: seq<Unit>, left: nat, right: nat, leftSpeed: Short, rightSpeed: Short): (r: seq<Unit>)
    requires left < |units| && right < |units|
    ensures |r| == |units|
  {
    var us := units[left := units[left].(control := Joints.Control(leftSpeed, Joints.PID))];
    us[right := us[right].(control := Joints.Control(rightSpeed, Joints.PID))]
  }

  /** Orazio_driveControl. */
  function DriveControl(b: Board, leftSpeed: Short, rightSpeed: Short): Board
    requires b.Valid()
  {
    var b1 := if b.lastSeq != b.driveSeq then b.(enabled := true, lastSeq := b.driveSeq) else b;
    if b1.enabled then b1.(units := Command(b1.units, b1.left, b1.right, leftSpeed, rightSpeed)) else b1
  }

  /** Orazio_jointsInit, which clears the controllers but neither their commands nor their status. */
  function ResetUnit(u: Unit): Unit {
    u.(joint := Joints.Cleared(u.joint))
  }

  function ResetFirst(units: seq<Unit>, n: nat): (r: seq<Unit>)
    requires n <= |units|
    ensures |r| == |units|
    ensures forall i | 0 <= i < |r| :: r[i] == if i < n then ResetUnit(units[i]) else units[i]
  {
    seq(|units|, i requires 0 <= i < |units| => if i < n then ResetUnit(units[i]) else units[i])
  }

  /** The controllers cleared: all up to and including the first whose bridge refuses its pins. */
  function Cleared(bridges: Bridges): (n: nat)
    ensures 1 <= n <= 2
    ensures forall i | 0 <= i < n - 1 :: bridges[i]
    ensures n < 2 ==> !bridges[n - 1]
  {
    if bridges[0] then 2 else 1
  }

  function Apply(b: Board, e: Effect): (r: Board)
    requires b.Valid()
    ensures r.Valid()
  {
    match e
    case DriveCommand(s, _) => b.(driveSeq := s)
    case JointCommand(i, c) =>
      if i < 2 then b.(enabled := false, units := b.units[i := b.units[i].(control := c)]) else b
    case DriveReset => b.(lastSeq := b.driveSeq)
    case JointsReset(bridges) => b.(units := ResetFirst(b.units, Cleared(bridges)))
    case Other => b
  }

  /** Orazio_watchdogHandle. */
  function WatchdogHandle(b: Board): (r: Board)
    requires b.Valid()
    ensures r.Valid()
  {
    if b.cycles == 0 then b.(count := 0)
    else
      var b1 := if b.count > 0 then b.(count := b.count - 1) else b;
      if b1.count == 0 then b1.(enabled := false, units := DisableAll(b1.units)) else b1
  }

  /** The end of a cycle: any packet since its start resets the watchdog. The count is an int16, the
      parameter a uint16. */
  function Watch(b: Board): (r: Board)
    requires b.Valid()
    ensures r.Valid()
  {
    WatchdogHandle(if b.previousRx != b.rx then b.(count := ToShort(b.cycles)) else b)
  }

  predicate Possible(b: Board, e: Event) {
    match e
    case Timer(encoders) => |encoders| == 2
    case Start(_, _) => !b.open
    case Receive(_) => b.open
    case Finish => b.open
  }

  function Step(b: Board, e: Event): (r: Board)
    requires b.Valid() && Possible(b, e)
    ensures r.Valid()
  {
    match e
    case Timer(encoders) => b.(units := TickAll(b.units, encoders))
    case Start(l, r) => DriveControl(b.(open := true, previousRx := b.rx), l, r)
    case Receive(effect) => Apply(b.(rx := ToWord(b.rx + 1)), effect)
    case Finish => Watch(b).(open := false)
  }

  /** The events can happen in this order. */
  predicate Legal(b: Board, es: seq<Event>)
    requires b.Valid()
    decreases |es|
  {
    es == [] || (Possible(b, es[0]) && Legal(Step(b, es[0]), es[1..]))
  }

  function Run(b: Board, es: seq<Event>): (r: Board)
    requires b.Valid() && Legal(b, es)
    ensures r.Valid()
    decreases |es|
  {
    if es == [] then b else Run(Step(b, es[0]), es[1..])
  }

  predicate Silent(es: seq<Event>) { forall i | 0 <= i < |es| :: !es[i].Receive? }

  /** Communication cycles that end in a run. */
  function Ends(es: seq<Event>): nat {
    if es == [] then 0 else (if es[0].Finish? then 1 else 0) + Ends(es[1..])
  }

  function Starts(es: seq<Event>): nat {
    if es == [] then 0 else (if es[0].Start? then 1 else 0) + Starts(es[1..])
  }

  // ---------------------------------------------------------------- a cycle that hears something

  /** The robot stands still and nothing is left that would move it. */
  predicate Halted(b: Board) {
    && !b.enabled && b.lastSeq == b.driveSeq
    && forall i | 0 <= i < |b.units| :: b.units[i].control.mode == Joints.DISABLED && b.units[i].joint.output == 0
  }

  /** The watchdog takes effect. */
  predicate Trips(b: Board)
    requires b.Valid()
  {
    b.cycles != 0 && Watch(b).count == 0
  }

  /** At the end of a cycle with a packet, the watchdog trips if and only if it is set to one cycle;
      otherwise the end of the cycle only restarts the count. */
  lemma {:induction false} HeardTripsIff(b: Board)
    requires b.Valid() && b.previousRx != b.rx
    ensures Trips(b) <==> b.cycles == 1
    ensures !Trips(b) ==>
              Watch(b) == b.(count := if b.cycles > 0x7FFF then b.cycles - 0x1_0000
                                      else if b.cycles == 0 then 0 else b.cycles - 1)
  {
  }

  /** At the end of a silent cycle the count falls by one until it is 0; a negative one stays, and a watchdog that is
      switched off always shows 0. */
  lemma {:induction false} SilentCount(b: Board)
    requires b.Valid() && b.previousRx == b.rx
    ensures Watch(b).count == if b.cycles == 0 then 0 else if b.count > 0 then b.count - 1 else b.count
    ensures Trips(b) <==> b.cycles != 0 && (b.count == 0 || b.count == 1)
    ensures !Trips(b) ==> Watch(b) == b.(count := Watch(b).count)
  {
  }

  /** Between a start and the end of the cycle, the count of packets is seen, also across its wrap. */
  lemma {:induction false} HeardSeen(b: Board, es: seq<Event>)
    requires b.Valid() && Legal(b, es) && b.open && Ends(es) == 0
    ensures Run(b, es).open && Run(b, es).previousRx == b.previousRx && Run(b, es).cycles == b.cycles
    ensures Run(b, es).rx == ToWord(b.rx + Heard(es))
    ensures Run(b, es).rx != b.rx <==> Heard(es) % 0x1_0000 != 0
    decreases |es|
  {
    if es == [] {
      WordKeeps(b.rx);
    } else {
      HeardStep(b, es[0]);
      hide Step;
      HeardSeen(Step(b, es[0]), es[1..]);
      if es[0].Receive? { WordAdd(b.rx + 1, Heard(es[1..])); }
      SmallShift(b.rx, Heard(es));
      hide ToWord;
    }
  }

  lemma {:induction false} HeardStep(b: Board, e: Event)
    requires b.Valid() && Possible(b, e) && b.open && !e.Finish?
    ensures var b1 := Step(b, e);
            && b1.open && b1.previousRx == b.previousRx && b1.cycles == b.cycles
            && b1.rx == if e.Receive? then ToWord(b.rx + 1) else b.rx
  {
  }

  lemma {:induction false} SmallShift(w: Word, n: nat)
    ensures ToWord(w + n) != w <==> n % 0x1_0000 != 0
  {
  }

  function Heard(es: seq<Event>): nat {
    if es == [] then 0 else (if es[0].Receive? then 1 else 0) + Heard(es[1..])
  }

  // ---------------------------------------------------------------- silence

  /** What remains of the count after n silent cycles. */
  function After(cycles: Word, n: nat): nat { if n + 1 < cycles then cycles - 1 - n else 0 }

  /** The same board with the watchdog switched off. */
  function Off(b: Board): Board { b.(cycles := 0, count := 0) }

  /** Nothing was heard since the cycle under way began. */
  predicate Quiet(b: Board) { b.open ==> b.previousRx == b.rx }

  /** A step at which the watchdog does not trip is the step of a board without a watchdog. */
  lemma {:induction false} StepInvisible(b: Board, e: Event)
    requires b.Valid() && Possible(b, e) && (e.Finish? ==> !Trips(b))
    ensures Step(Off(b), e) == Off(Step(b, e))
  {
    hide TickAll;
    if e.Receive? { ApplyInvisible(b.(rx := ToWord(b.rx + 1)), e.effect); }
    hide Apply;
    if e.Start? { ControlInvisible(b.(open := true, previousRx := b.rx), e.leftSpeed, e.rightSpeed); }
    hide DriveControl;
    hide DisableAll;
  }

  lemma {:induction false} ApplyInvisible(b: Board, e: Effect)
    requires b.Valid()
    ensures Apply(Off(b), e) == Off(Apply(b, e))
  {
    hide ResetFirst;
  }

  lemma {:induction false} ControlInvisible(b: Board, l: Short, r: Short)
    requires b.Valid()
    ensures DriveControl(Off(b), l, r) == Off(DriveControl(b, l, r))
  {
    hide Command;
  }

  /** Before the trip the watchdog is invisible: the run is the one without a watchdog. */
  lemma {:induction false} InvisibleBefore(b: Board, es: seq<Event>, n: nat)
    requires b.Valid() && Legal(b, es) && Silent(es) && Quiet(b)
    requires 2 <= b.cycles <= 0x7FFF && b.count == After(b.cycles, n) && n + Ends(es) + 1 < b.cycles
    ensures Legal(Off(b), es) && Run(Off(b), es) == Off(Run(b, es))
    ensures var r := Run(b, es); Quiet(r) && r.cycles == b.cycles && r.count == After(b.cycles, n + Ends(es))
    decreases |es|
  {
    if es != [] {
      assert !es[0].Receive?;
      StepInvisible(b, es[0]);
      hide DriveControl;
      hide TickAll;
      hide DisableAll;
      InvisibleBefore(Step(b, es[0]), es[1..], n + if es[0].Finish? then 1 else 0);
    }
  }

  /** A watchdog of 0x8000 cycles or more becomes a negative count and never trips, whatever is heard. */
  lemma {:induction false} LargeNeverTrips(b: Board, es: seq<Event>)
    requires b.Valid() && Legal(b, es) && b.cycles > 0x7FFF && b.count < 0
    ensures Legal(Off(b), es) && Run(Off(b), es) == Off(Run(b, es)) && Run(b, es).count < 0
    decreases |es|
  {
    if es != [] {
      StepInvisible(b, es[0]);
      hide DriveControl;
      hide TickAll;
      hide DisableAll;
      LargeNeverTrips(Step(b, es[0]), es[1..]);
    }
  }

  /** Nothing that happens in silence moves a halted robot: not the timer, at any moment, not the drive. */
  lemma {:induction false} HaltedStays(b: Board, e: Event)
    requires b.Valid() && Possible(b, e) && Halted(b) && !e.Receive?
    ensures Halted(Step(b, e))
  {
    hide Joints.PidStep;
  }

  /** The silent cycle that exhausts the count halts the robot. */
  lemma {:induction false} TripHalts(b: Board)
    requires b.Valid() && Possible(b, Finish) && Quiet(b) && 1 <= b.cycles && 0 <= b.count <= 1
    requires b.lastSeq == b.driveSeq
    ensures Halted(Step(b, Finish)) && Step(b, Finish).count == 0
  {
  }

  /** An open cycle has taken note of the last drive command, if nothing was received in it. */
  predicate Noted(b: Board) { b.open ==> b.lastSeq == b.driveSeq }

  /** In silence: the count falls with every cycle; once n reaches cycles - 1 the robot is halted. */
  lemma {:induction false} SilenceHalts(b: Board, es: seq<Event>, n: nat)
    requires b.Valid() && Legal(b, es) && Silent(es) && Quiet(b) && Noted(b)
    requires 2 <= b.cycles <= 0x7FFF && b.count == After(b.cycles, n) && (n + 1 >= b.cycles ==> Halted(b))
    ensures Run(b, es).count == After(b.cycles, n + Ends(es))
    ensures n + Ends(es) + 1 >= b.cycles ==> Halted(Run(b, es))
    decreases |es|
  {
    if es != [] {
      assert !es[0].Receive?;
      var b1, n1 := Step(b, es[0]), n + if es[0].Finish? then 1 else 0;
      if n + 1 >= b.cycles { HaltedStays(b, es[0]); } else if es[0].Finish? && b.count == 1 { TripHalts(b); }
      hide DriveControl;
      hide TickAll;
      hide DisableAll;
      hide Halted;
      SilenceHalts(b1, es[1..], n1);
    }
  }

  /** After a cycle that heard a packet: as long as fewer than cycles - 1 silent cycles have ended, the run is
      that of a robot without a watchdog; from the (cycles - 1)-th on, as long as the silence lasts, the
      robot is halted, at every moment, with timer ticks anywhere. */
  lemma {:induction false} WatchdogTrips(b: Board, es: seq<Event>)
    requires b.Valid() && b.open && b.previousRx != b.rx && 2 <= b.cycles <= 0x7FFF
    requires Legal(Step(b, Finish), es) && Silent(es)
    ensures var s := Step(b, Finish);
            && s == b.(count := b.cycles - 1, open := false)
            && (Ends(es) < b.cycles - 1 ==> Legal(Off(s), es) && Run(Off(s), es) == Off(Run(s, es)))
            && (Ends(es) >= b.cycles - 1 ==> Halted(Run(s, es)))
  {
    HeardTripsIff(b);
    var s := Step(b, Finish);
    if Ends(es) < b.cycles - 1 { InvisibleBefore(s, es, 0); }
    SilenceHalts(s, es, 0);
  }

  // ---------------------------------------------------------------- who moves the joints

  predicate Resets(e: Event) { e.Receive? && e.effect.DriveReset? }

  predicate Overrides(e: Event) { e.Receive? && e.effect.JointCommand? && e.effect.index < 2 }

  /** The sequence number of the last drive command of a run. */
  function LastCommand(s: Word, es: seq<Event>): Word
    decreases |es|
  {
    if es == [] then s
    else LastCommand(if es[0].Receive? && es[0].effect.DriveCommand? then es[0].effect.seqNo else s, es[1..])
  }

  lemma {:induction false} RunConcat(b: Board, es: seq<Event>, fs: seq<Event>)
    requires b.Valid()
    ensures Legal(b, es + fs) <==> Legal(b, es) && Legal(Run(b, es), fs)
    ensures Legal(b, es + fs) ==> Run(b, es + fs) == Run(Run(b, es), fs)
    decreases |es|
  {
    hide Step;
    if es == [] {
      assert es + fs == fs;
    } else {
      assert (es + fs)[0] == es[0] && (es + fs)[1..] == es[1..] + fs;
      if Possible(b, es[0]) { RunConcat(Step(b, es[0]), es[1..], fs); }
    }
  }

  /** The watchdog trips at the end of a cycle in this run. */
  predicate TripsIn(b: Board, es: seq<Event>)
    requires b.Valid() && Legal(b, es)
    decreases |es|
  {
    es != [] && ((es[0].Finish? && Trips(b)) || TripsIn(Step(b, es[0]), es[1..]))
  }

  /** Between two starts, the drive and its sequence numbers. */
  lemma {:induction false} BetweenStarts(b: Board, es: seq<Event>)
    requires b.Valid() && Legal(b, es) && Starts(es) == 0
    ensures var r := Run(b, es);
            && r.driveSeq == LastCommand(b.driveSeq, es)
            && (r.enabled <==> b.enabled && (forall i | 0 <= i < |es| :: !Overrides(es[i])) && !TripsIn(b, es))
            && ((forall i | 0 <= i < |es| :: !Resets(es[i])) ==> r.lastSeq == b.lastSeq)
    decreases |es|
  {
    if es != [] {
      hide TickAll;
      hide DisableAll;
      hide ResetFirst;
      var b1 := Step(b, es[0]);
      BetweenStarts(b1, es[1..]);
      assert forall i | 1 <= i < |es| :: es[i] == es[1..][i - 1];
      assert b1.enabled <==> b.enabled && !Overrides(es[0]) && !(es[0].Finish? && Trips(b));
    }
  }

  /** A run that ends with a reset has taken note of the last command. */
  lemma {:induction false} ResetForgets(b: Board, es: seq<Event>)
    requires b.Valid() && Legal(b, es) && es != [] && Resets(es[|es| - 1])
    ensures Run(b, es).lastSeq == Run(b, es).driveSeq
  {
    var n := |es| - 1;
    assert es == es[..n] + [es[n]];
    RunConcat(b, es[..n], [es[n]]);
    assert Run(Run(b, es[..n]), [es[n]]) == Step(Run(b, es[..n]), es[n]);
  }

  /** The drive moves the joints in a cycle if and only if the last drive command, since the start of the
      cycle before, has another sequence number than the last one noted - by that start, or by a later
      reinitialisation of the drive, which forgets a new command - or the drive was on, no joint was
      commanded directly, and the watchdog did not trip. A drive command and a joint command of the same
      cycle, in either order, leave the drive on. */
  lemma {:induction false} Arbitration(b: Board, es: seq<Event>, reset: seq<Event>, rest: seq<Event>, l: Short,
                                       r: Short)
    requires b.Valid() && b.open && Noted(b)
    requires es == reset + rest && (reset == [] || Resets(reset[|reset| - 1]))
    requires forall i | 0 <= i < |rest| :: !Resets(rest[i])
    requires Starts(es) == 0 && Legal(b, es + [Start(l, r)])
    ensures Legal(b, es)
    ensures Run(b, es + [Start(l, r)]).enabled <==>
            LastCommand(b.driveSeq, es) != LastCommand(b.driveSeq, reset) ||
            (b.enabled && (forall i | 0 <= i < |es| :: !Overrides(es[i])) && !TripsIn(b, es))
  {
    hide LastCommand;
    hide Overrides;
    hide Resets;
    hide Step;
    hide TripsIn;
    RunConcat(b, es, [Start(l, r)]);
    RunConcat(b, reset, rest);
    StartsConcat(reset, rest);
    BetweenStarts(b, es);
    BetweenStarts(b, reset);
    var b1, b2 := Run(b, reset), Run(b, es);
    NotedByReset(b, reset);
    BetweenStarts(b1, rest);
    StartEnables(b2, l, r);
  }

  lemma {:induction false} NotedByReset(b: Board, reset: seq<Event>)
    requires b.Valid() && Legal(b, reset) && b.lastSeq == b.driveSeq && (reset == [] || Resets(reset[|reset| - 1]))
    ensures Run(b, reset).lastSeq == Run(b, reset).driveSeq
  {
    if reset != [] { ResetForgets(b, reset); }
  }

  lemma {:induction false} StartEnables(b: Board, l: Short, r: Short)
    requires b.Valid() && Legal(b, [Start(l, r)])
    ensures Run(b, [Start(l, r)]).enabled <==> b.lastSeq != b.driveSeq || b.enabled
  {
    assert Run(b, [Start(l, r)]) == Run(Step(b, Start(l, r)), []);
  }

  lemma {:induction false} StartsConcat(es: seq<Event>, fs: seq<Event>)
    ensures Starts(es + fs) == Starts(es) + Starts(fs)
  {
    if es == [] { assert es + fs == fs; } else {
      assert (es + fs)[1..] == es[1..] + fs;
      StartsConcat(es[1..], fs);
    }
  }

  // ---------------------------------------------------------------- what the joints are commanded

  /** Each event and the joints. A timer tick handles every joint under its own command; a joint command replaces the
      command of one joint; joint parameters clear the controllers up to the first bad bridge; a trip disables all
      joints and zeroes their outputs, keeping the commanded speeds; other packets leave the joints alone. */
  lemma {:induction false} StepUnits(b: Board, e: Event, i: nat)
    requires b.Valid() && Possible(b, e) && !e.Start? && i < 2
    ensures var u, v := b.units[i], Step(b, e).units[i];
            && v.params == u.params
            && (e.Timer? ==> v == u.(joint := Joints.Tick(u.params, u.control, e.encoders[i], u.joint)))
            && (e.Finish? ==> v == if Trips(b) then u.(control := u.control.(mode := 0), joint := u.joint.(output := 0))
                                   else u)
            && (e.Receive? ==>
                  && v.control == (if e.effect.JointCommand? && e.effect.index == i then e.effect.control
                                   else u.control)
                  && v.joint == if e.effect.JointsReset? && (i == 0 || e.effect.bridges[0])
                                then u.joint.(output := 0, ramp := 0, integral := 0, error := 0, previous := 0)
                                else u.joint)
  {
    hide Joints.Tick;
  }

  /** A run that ends with the start of a cycle. If the drive is on then, in any cycle, be its command new or old, its
      joints have the two speeds as PID commands, the right one last; if it is off no joint is touched. */
  lemma {:induction false} StartCommands(b: Board, es: seq<Event>, l: Short, r: Short)
    requires b.Valid() && Legal(b, es + [Start(l, r)])
    ensures Legal(b, es) && Run(b, es + [Start(l, r)]).Valid()
    ensures var before, after := Run(b, es), Run(b, es + [Start(l, r)]);
            && (after.enabled ==>
                  && after.units[after.right] == before.units[after.right].(control := Joints.Control(r, 2))
                  && (after.left != after.right ==>
                        after.units[after.left] == before.units[after.left].(control := Joints.Control(l, 2))))
            && (!after.enabled ==> after.units == before.units)
            && (forall i | 0 <= i < 2 && i != after.left && i != after.right :: after.units[i] == before.units[i])
            && after.left == before.left && after.right == before.right
  {
    RunConcat(b, es, [Start(l, r)]);
    var b1 := Run(b, es);
    assert Run(b1, [Start(l, r)]) == Run(Step(b1, Start(l, r)), []);
    hide Run;
    hide Legal;
  }

  /** The joints of the drive have the speeds l and r as PID commands. */
  predicate UnderSpeeds(b: Board, l: Short, r: Short)
    requires b.Valid()
  {
    b.units[b.left].control == Joints.Control(l, 2) && b.units[b.right].control == Joints.Control(r, 2)
  }

  /** Whatever happens between two starts: while the drive is on, its joints keep the commands of the last start. */
  lemma {:induction false} OnKeepsCommands(b: Board, es: seq<Event>, l: Short, r: Short)
    requires b.Valid() && Legal(b, es) && Starts(es) == 0 && (b.enabled ==> UnderSpeeds(b, l, r))
    ensures Run(b, es).enabled ==> UnderSpeeds(Run(b, es), l, r)
    decreases |es|
  {
    if es != [] {
      var b1 := Step(b, es[0]);
      StepUnits(b, es[0], 0);
      StepUnits(b, es[0], 1);
      StepEnabled(b, es[0]);
      hide Step;
      hide Trips;
      OnKeepsCommands(b1, es[1..], l, r);
    }
  }

  /** Only a start switches the drive on; a joint command and a trip switch it off. */
  lemma {:induction false} StepEnabled(b: Board, e: Event)
    requires b.Valid() && Possible(b, e) && !e.Start?
    ensures Step(b, e).enabled <==>
            b.enabled && !(e.Receive? && e.effect.JointCommand? && e.effect.index < 2) && !(e.Finish? && Trips(b))
    ensures Step(b, e).left == b.left && Step(b, e).right == b.right
  {
    hide TickAll;
    hide DisableAll;
    hide ResetFirst;
  }

  /** At every moment after the start of a cycle, before the next one: a drive that is on has its joints under the
      speeds that the start commanded. */
  lemma {:induction false} OnMeansCommanded(b: Board, es: seq<Event>, l: Short, r: Short, rest: seq<Event>)
    requires b.Valid() && b.left != b.right && Legal(b, es + [Start(l, r)] + rest) && Starts(rest) == 0
    ensures Run(b, es + [Start(l, r)] + rest).enabled ==> UnderSpeeds(Run(b, es + [Start(l, r)] + rest), l, r)
  {
    RunConcat(b, es + [Start(l, r)], rest);
    RunConcat(b, es, [Start(l, r)]);
    SidesStay(b, es);
    StartCommands(b, es, l, r);
    OnKeepsCommands(Run(b, es + [Start(l, r)]), rest, l, r);
  }

  lemma {:induction false} SidesStay(b: Board, es: seq<Event>)
    requires b.Valid() && Legal(b, es)
    ensures Run(b, es).left == b.left && Run(b, es).right == b.right
    decreases |es|
  {
    if es != [] {
      hide DriveControl;
      assert Step(b, es[0]).left == b.left && Step(b, es[0]).right == b.right by {
        if es[0].Start? { StartSides(b, es[0]); } else { StepEnabled(b, es[0]); }
      }
      hide Step;
      SidesStay(Step(b, es[0]), es[1..]);
    }
  }

  lemma {:induction false} StartSides(b: Board, e: Event)
    requires b.Valid() && Possible(b, e) && e.Start?
    ensures Step(b, e).left == b.left && Step(b, e).right == b.right
  {
  }

  // ---------------------------------------------------------------- the timer

  /** onTimerTick: the counter is a byte, the parameter that reloads it is 16 bits wide. */
  function TickCounter(counter: uint8): uint8 { if counter == 0 then 255 else counter - 1 }

  function Reload(commCycles: Word): uint8 { (commCycles % 256) as uint8 }

  function Ticks(counter: uint8, n: nat): uint8
    decreases n
  {
    if n == 0 then counter else Ticks(TickCounter(counter), n - 1)
  }

  /** Timer ticks from a reload to the next communication cycle. */
  function Period(commCycles: Word): nat { if commCycles % 256 == 0 then 256 else commCycles % 256 }

  lemma {:induction false} TicksCount(counter: uint8, n: nat)
    requires n <= 256
    ensures Ticks(counter, n) as int == if n <= counter as int then counter as int - n else counter as int - n + 256
    decreases n
  {
    if n > 0 { TicksCount(TickCounter(counter), n - 1); }
  }

  /** The period is the one the drive assumes, comm_cycles ticks, if and only if that is 1 to 256. */
  lemma {:induction false} PeriodIff(commCycles: Word, n: nat)
    requires 0 < n <= Period(commCycles)
    ensures Ticks(Reload(commCycles), n) == 0 <==> n == Period(commCycles)
    ensures Period(commCycles) == commCycles <==> 1 <= commCycles <= 256
  {
    TicksCount(Reload(commCycles), n);
  }
}
