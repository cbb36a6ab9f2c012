/** orazio_drive_internal.c: the differential drive between the velocities of the base and the ticks of its
    two joints. Floats are reals here; a float stored in an int16_t loses its fraction, as in C. */
module Drives {
  import opened Words
  import Joints

  datatype Params = Params(ikr: real, ikl: real, baseline: real,
                           maxTv: real, maxTa: real, brake: real, maxRv: real, maxRa: real)
  {
    /** The divisions of the initialisation are defined. */
    predicate Usable() { ikr != 0.0 && ikl != 0.0 && baseline != 0.0 }

    /** Limits are magnitudes. */
    predicate Limits() { maxTv >= 0.0 && maxTa >= 0.0 && brake >= 0.0 && maxRv >= 0.0 && maxRa >= 0.0 }
  }

  datatype Command = Command(tv: real, rv: real)

  datatype Velocities = Velocities(measured: Command, desired: Command, adjusted: Command)

  const ZERO := Command(0.0, 0.0)

  /** The controller: the encoder values of the last update, and the published velocities. */
  datatype Drive = Drive(left: Word, right: Word, status: Velocities)

  function AbsR(x: real): (r: real) { if x < 0.0 then 0.0 - x else x }

  function Clamp(value: real, threshold: real): real {
    if value > threshold then threshold else if value < -threshold then -threshold else value
  }

  /** The conversion of a float to an integer type. */
  function Trunc(x: real): int { if x >= 0.0 then x.Floor else -((-x).Floor) }

  /** The ticks of a joint make this many metres; and back. */
  function Metres(ticks: int, ik: real): real
    requires ik != 0.0
  {
    ticks as real / ik
  }

  function Ticks(ik: real, metres: real): real { ik * metres }

  /** The difference of the wheels, in metres, turns the base by this angle; and back. */
  function Angle(metres: real, baseline: real): real
    requires baseline != 0.0
  {
    metres / baseline
  }

  function Arc(baseline: real, angle: real): real { baseline * angle }

  /** The velocity of a distance; and back. */
  function Rate(x: real, dt: real): real
    requires dt > 0.0
  {
    x / dt
  }

  function Distance(v: real, dt: real): real { v * dt }

  /** Measured velocities from the ticks of one update. */
  function Measure(p: Params, dt: real, left: int, right: int): Command
    requires p.Usable() && dt > 0.0
  {
    var l, r := Metres(left, p.ikl), Metres(right, p.ikr);
    Command(Rate(0.5 * (r + l), dt), Rate(Angle(r - l, p.baseline), dt))
  }

  function TvStep(p: Params, dt: real, des: real): real { if des == 0.0 then p.brake else p.maxTa * dt }

  function RvStep(p: Params, dt: real): real { p.maxRa * dt }

  /** From the measured velocity towards the desired one, by at most step, at most to the limit. */
  function Approach(measured: real, desired: real, step: real, limit: real): real {
    Clamp(measured + Clamp(desired - measured, step), limit)
  }

  function Adjust(p: Params, dt: real, desired: Command, measured: Command): Command {
    Command(Approach(measured.tv, desired.tv, TvStep(p, dt, desired.tv), p.maxTv),
            Approach(measured.rv, desired.rv, RvStep(p, dt), p.maxRv))
  }

  function Updated(p: Params, dt: real, desired: Command, left: Word, right: Word, d: Drive): Drive
    requires p.Usable() && dt > 0.0
  {
    var m := Measure(p, dt, Joints.Difference(left, d.left), Joints.Difference(right, d.right));
    Drive(left, right, Velocities(m, desired, Adjust(p, dt, desired, m)))
  }

  /** The joint speeds, in ticks per joint cycle, that move the base with velocity v. */
  function LeftSpeed(p: Params, jointsDt: real, v: Command): real {
    Ticks(p.ikl, Along(jointsDt, v) - Across(p, jointsDt, v))
  }

  function RightSpeed(p: Params, jointsDt: real, v: Command): real {
    Ticks(p.ikr, Along(jointsDt, v) + Across(p, jointsDt, v))
  }

  /** Metres per joint cycle: common to both wheels, and half the difference between them. */
  function Along(jointsDt: real, v: Command): real { Distance(v.tv, jointsDt) }
  function Across(p: Params, jointsDt: real, v: Command): real { 0.5 * Arc(p.baseline, Distance(v.rv, jointsDt)) }

  /** The joint speeds fit the 16 bits of the joint control. */
  predicate Representable(p: Params, jointsDt: real, v: Command) {
    FitsShort(Trunc(LeftSpeed(p, jointsDt, v))) && FitsShort(Trunc(RightSpeed(p, jointsDt, v)))
  }

  class DifferentialDriveController {
    var status: Velocities
    var params: Params
    var control: Command
    const left: Joints.JointController
    const right: Joints.JointController
    // cached from the parameters
    var dt: real
    var idt: real
    var jointsDt: real
    var kr: real
    var kl: real
    var ikr: real
    var ikl: real
    var ibaseline: real
    var maxDtv: real
    var maxDrv: real
    // encoders of the previous update
    var leftPrevious: Word
    var rightPrevious: Word

    ghost predicate Valid()
      reads this
    {
      && params.Usable() && dt > 0.0 && idt == 1.0 / dt
      && ikr == params.ikr && ikl == params.ikl && kr == 1.0 / params.ikr && kl == 1.0 / params.ikl
      && ibaseline == 1.0 / params.baseline
      && maxDtv == params.maxTa * dt && maxDrv == params.maxRa * dt
    }

    function State(): Drive
      reads this
    {
      Drive(leftPrevious, rightPrevious, status)
    }

    /** At rest, with the encoders as they stand. */
    function Initial(): Drive
      reads this, left, right
    {
      Drive(left.encoderPosition, right.encoderPosition, Velocities(ZERO, ZERO, ZERO))
    }

    constructor (params: Params, control: Command, left: Joints.JointController, right: Joints.JointController,
                 dt: real, jointsDt: real)
      requires params.Usable() && dt > 0.0
      ensures Valid() && this.params == params && this.control == control && this.left == left && this.right == right
      ensures this.dt == dt && this.jointsDt == jointsDt
      ensures State() == Initial()
    {
      this.params, this.control, this.left, this.right := params, control, left, right;
      this.dt, idt, this.jointsDt := dt, 1.0 / dt, jointsDt;
      ikr, ikl, kr, kl := params.ikr, params.ikl, 1.0 / params.ikr, 1.0 / params.ikl;
      ibaseline := 1.0 / params.baseline;
      maxDtv, maxDrv := params.maxTa * dt, params.maxRa * dt;
      new;
      Reset();
    }

    method Reset()
      requires Valid()
      modifies this
      ensures Valid() && params == old(params) && control == old(control) && dt == old(dt) && jointsDt == old(jointsDt)
      ensures State() == Initial()
    {
      status := Velocities(ZERO, ZERO, ZERO);
      leftPrevious := left.encoderPosition;
      rightPrevious := right.encoderPosition;
    }

    /** Measured velocities from the ticks of both joints. */
    method Velocity(leftTicks: Short, rightTicks: Short) returns (tvm: real, rvm: real)
      requires Valid()
      ensures Command(tvm, rvm) == Measure(params, dt, leftTicks, rightTicks)
    {
      hide Measure;
      MeasureCached(params, dt, leftTicks, rightTicks);
      MeasureStill(params, dt);
      tvm, rvm := 0.0, 0.0;
      // a robot at rest is measured at rest
      if leftTicks != 0 || rightTicks != 0 {
        var deltaL := kl * leftTicks as real;
        var deltaR := kr * rightTicks as real;
        var deltaPlus, deltaMinus := deltaR + deltaL, deltaR - deltaL;
        var dth := deltaMinus * ibaseline;
        tvm := 0.5 * deltaPlus * idt;
        rvm := dth * idt;
      }
    }

    /** The velocities to command: the acceleration profile, then the limits. */
    method Smooth(tvm: real, rvm: real) returns (adjusted: Command)
      requires Valid()
      ensures adjusted == Adjust(params, dt, control, Command(tvm, rvm))
    {
      var desTv, desRv := control.tv, control.rv;
      var step := maxDtv;
      // braking has its own limit
      if desTv == 0.0 { step := params.brake; }
      var dtv := Clamp(desTv - tvm, step);
      desTv := Clamp(tvm + dtv, params.maxTv);
      var drv := Clamp(desRv - rvm, maxDrv);
      desRv := Clamp(rvm + drv, params.maxRv);
      adjusted := Command(desTv, desRv);
    }

    /** Measured velocities from the encoders, then the velocities to command. */
    method Update()
      requires Valid()
      modifies this
      ensures Valid() && params == old(params) && control == old(control) && dt == old(dt) && jointsDt == old(jointsDt)
      ensures State() == Updated(params, dt, control, left.encoderPosition, right.encoderPosition, old(State()))
    {
      hide Joints.Difference;
      hide Measure;
      hide Adjust;
      hide Params.Usable;
      var leftTicks := Joints.Difference(left.encoderPosition, leftPrevious);
      var rightTicks := Joints.Difference(right.encoderPosition, rightPrevious);
      leftPrevious := left.encoderPosition;
      rightPrevious := right.encoderPosition;

      var tvm, rvm := Velocity(leftTicks, rightTicks);
      var adjusted := Smooth(tvm, rvm);
      status := Velocities(Command(tvm, rvm), control, adjusted);
    }

    /** Sets the speeds of both joints. */
    method Control()
      requires Valid() && Representable(params, jointsDt, status.adjusted)
      modifies left, right
      ensures left.State() == old(left.State()) && right.State() == old(right.State())
      ensures left.params == old(left.params) && right.params == old(right.params)
      ensures right.control == Joints.Control(Trunc(RightSpeed(params, jointsDt, status.adjusted)), Joints.PID)
      ensures left != right ==>
                left.control == Joints.Control(Trunc(LeftSpeed(params, jointsDt, status.adjusted)), Joints.PID)
    {
      hide Trunc;
      hide Ticks;
      hide Along;
      hide Across;
      var d2p := Along(jointsDt, status.adjusted);
      var d2m := Across(params, jointsDt, status.adjusted);
      var jlv := Ticks(ikl, d2p - d2m);
      var jrv := Ticks(ikr, d2p + d2m);
      left.control := Joints.Control(Trunc(jlv), Joints.PID);
      right.control := Joints.Control(Trunc(jrv), Joints.PID);
    }
  }

  /** The cached reciprocals give the quotients. */
  lemma {:induction false} MeasureCached(p: Params, dt: real, left: int, right: int)
    requires p.Usable() && dt > 0.0
    ensures var l, r := 1.0 / p.ikl * left as real, 1.0 / p.ikr * right as real;
            Measure(p, dt, left, right) ==
            Command(0.5 * (r + l) * (1.0 / dt), (r - l) * (1.0 / p.baseline) * (1.0 / dt))
  {
    var l, r := 1.0 / p.ikl * left as real, 1.0 / p.ikr * right as real;
    Reciprocal(left as real, p.ikl);
    Reciprocal(right as real, p.ikr);
    Reciprocal(0.5 * (r + l), dt);
    Reciprocal(r - l, p.baseline);
    Reciprocal((r - l) * (1.0 / p.baseline), dt);
  }

  lemma {:induction false} Reciprocal(x: real, y: real)
    requires y != 0.0
    ensures x / y == x * (1.0 / y) && x / y == 1.0 / y * x
  {
  }

  lemma {:induction false} MeasureStill(p: Params, dt: real)
    requires p.Usable() && dt > 0.0
    ensures Measure(p, dt, 0, 0) == ZERO
  {
  }

  // ---------------------------------------------------------------- limits

  /** v can be commanded: within one step of the measured velocity, and within the limit. */
  predicate Allowed(v: real, measured: real, step: real, limit: real) {
    AbsR(v - measured) <= step && AbsR(v) <= limit
  }

  /** a is nearest to the desired velocity among those within a step of the measured one and within the limit. When
      there are none - the base is faster than its limit by more than a step - it is the limit, on the side of the
      motion. v is any other velocity. */
  predicate Nearest(a: real, measured: real, desired: real, step: real, limit: real, v: real) {
    if AbsR(measured) <= limit + step then
      && Allowed(a, measured, step, limit)
      && (Allowed(v, measured, step, limit) ==> AbsR(a - desired) <= AbsR(v - desired))
    else
      !Allowed(v, measured, step, limit) && a == if measured > 0.0 then limit else 0.0 - limit
  }

  lemma {:induction false} ApproachIsNearest(measured: real, desired: real, step: real, limit: real, v: real)
    requires step >= 0.0 && limit >= 0.0
    ensures Nearest(Approach(measured, desired, step, limit), measured, desired, step, limit, v)
  {
  }

  /** Both commanded velocities are the nearest: the translational one with the brake as its step when the robot is
      to stop and with the acceleration over one cycle otherwise, the rotational one always with the acceleration. */
  lemma {:induction false} AdjustIsNearest(p: Params, dt: real, cmd: Command, m: Command, v: real)
    requires p.Limits() && dt > 0.0
    ensures var a := Adjust(p, dt, cmd, m);
            && Nearest(a.tv, m.tv, cmd.tv, if cmd.tv == 0.0 then p.brake else p.maxTa * dt, p.maxTv, v)
            && Nearest(a.rv, m.rv, cmd.rv, p.maxRa * dt, p.maxRv, v)
  {
    hide Approach;
    hide Nearest;
    StepsPositive(p, dt, cmd);
    var tvStep, rvStep := TvStep(p, dt, cmd.tv), RvStep(p, dt);
    assert tvStep == (if cmd.tv == 0.0 then p.brake else p.maxTa * dt) && rvStep == p.maxRa * dt;
    hide TvStep;
    hide RvStep;
    ApproachIsNearest(m.tv, cmd.tv, tvStep, p.maxTv, v);
    ApproachIsNearest(m.rv, cmd.rv, rvStep, p.maxRv, v);
  }

  /** What an update publishes. The encoder differences, modulo 2^16, over the ticks per metre are the ways of the
      wheels; over one cycle the measured velocities make half the sum of the ways and, on the baseline, the right
      way less the left one. The desired velocities are those of the command. */
  lemma {:induction false} UpdateMeans(p: Params, dt: real, cmd: Command, left: Word, right: Word, d: Drive)
    returns (l: Short, r: Short)
    requires p.Usable() && dt > 0.0
    ensures (l - (left - d.left)) % 0x1_0000 == 0 && (r - (right - d.right)) % 0x1_0000 == 0
    ensures var m := Updated(p, dt, cmd, left, right, d).status.measured;
            var leftWay, rightWay := l as real / p.ikl, r as real / p.ikr;
            m.tv * dt == 0.5 * (rightWay + leftWay) && m.rv * dt * p.baseline == rightWay - leftWay
    ensures var e := Updated(p, dt, cmd, left, right, d);
            && e.left == left && e.right == right && e.status.desired == cmd
            && e.status.adjusted == Adjust(p, dt, cmd, e.status.measured)
  {
    l, r := Joints.Difference(left, d.left), Joints.Difference(right, d.right);
    DifferenceMod(left, d.left);
    DifferenceMod(right, d.right);
    hide Joints.Difference;
    hide Adjust;
    MeasureTimes(p, dt, l, r);
    hide Measure;
  }

  lemma {:induction false} DifferenceMod(encoder: Word, previous: Word)
    ensures (Joints.Difference(encoder, previous) - (encoder - previous)) % 0x1_0000 == 0
  {
    Joints.ToShortMod(encoder - previous);
    hide ToShort;
  }

  lemma {:induction false} MeasureTimes(p: Params, dt: real, left: int, right: int)
    requires p.Usable() && dt > 0.0
    ensures Measure(p, dt, left, right).tv * dt == 0.5 * (right as real / p.ikr + left as real / p.ikl)
    ensures Measure(p, dt, left, right).rv * dt * p.baseline == right as real / p.ikr - left as real / p.ikl
  {
    var l, r := Metres(left, p.ikl), Metres(right, p.ikr);
    assert l == left as real / p.ikl && r == right as real / p.ikr;
    hide Metres;
    MeasureIs(p, dt, left, right);
    hide Measure;
    RateTimes(0.5 * (r + l), dt);
    RateTimes(Angle(r - l, p.baseline), dt);
    hide Rate;
    assert Angle(r - l, p.baseline) * p.baseline == r - l;
    hide Angle;
  }

  lemma {:induction false} RateTimes(x: real, dt: real)
    requires dt > 0.0
    ensures Rate(x, dt) * dt == x
  {
  }

  /** One braking cycle stops the base if and only if the brake parameter, which is not scaled by the time
      step as accelerations are, is at least its measured velocity (or nothing else is allowed). */
  lemma {:induction false} BrakeStopsIff(p: Params, dt: real, rv: real, m: Command)
    requires p.Limits()
    ensures Adjust(p, dt, Command(0.0, rv), m).tv == 0.0 <==> AbsR(m.tv) <= p.brake || p.maxTv == 0.0
  {
  }

  // ---------------------------------------------------------------- kinematic round trip

  /** n joint cycles make one cycle of the drive. */
  predicate Timed(jointsDt: real, n: nat,
                  dt: real) { jointsDt > 0.0 && n > 0 && dt > 0.0 && dt == n as real * jointsDt }

  /** What truncation takes away is less than one tick, and never turns a wheel around. */
  lemma {:induction false} TruncBound(x: real)
    ensures AbsR(x - Trunc(x) as real) < 1.0
    ensures (x >= 0.0 ==> 0.0 <= Trunc(x) as real <= x) && (x <= 0.0 ==> x <= Trunc(x) as real <= 0.0)
  {
  }

  function Times(n: real, x: real): real { n * x }

  function Fraction(x: real): real { x - Trunc(x) as real }

  /** The metres that truncation takes from one wheel, per joint cycle. */
  function Lost(ik: real, speed: real): real
    requires ik != 0.0
  {
    Fraction(speed) / ik
  }

  /** n joint cycles at the truncated speeds, measured over n cycles: the commanded velocity, less what the
      fractions of the two ticks make. */
  lemma {:induction false} RoundTripExact(p: Params, jointsDt: real, n: nat, dt: real, v: Command)
    requires p.Usable() && Timed(jointsDt, n, dt)
    ensures var l, r := LeftSpeed(p, jointsDt, v), RightSpeed(p, jointsDt, v);
            var lost, twist := Lost(p.ikr, r) + Lost(p.ikl, l), Lost(p.ikr, r) - Lost(p.ikl, l);
            var m := Measure(p, dt, n * Trunc(l), n * Trunc(r));
            m.tv == v.tv - Rate(0.5 * lost, jointsDt) && m.rv == v.rv - Rate(Angle(twist, p.baseline), jointsDt)
  {
    var l, r := LeftSpeed(p, jointsDt, v), RightSpeed(p, jointsDt, v);
    var fl, fr := Lost(p.ikl, l), Lost(p.ikr, r);
    var a, d := Distance(v.tv, jointsDt), Distance(v.rv, jointsDt);
    var b := 0.5 * Arc(p.baseline, d);
    var left, right := n * Trunc(l), n * Trunc(r);
    hide Times;
    hide Ticks;
    hide Distance;
    hide Arc;
    hide Lost;
    hide Metres;
    hide Trunc;
    hide Angle;
    hide Rate;
    WheelMetres(p.ikl, a - b, n);
    WheelMetres(p.ikr, a + b, n);
    Sums(n as real, a - b - fl, a + b - fr);
    MeasureIs(p, dt, left, right);
    hide Measure;
    hide LeftSpeed;
    hide RightSpeed;
    Forward(n, a, 0.5 * (fr + fl), Metres(right, p.ikr) + Metres(left, p.ikl), jointsDt, dt, v.tv);
    TurnBack(n, d, fr - fl, Metres(right, p.ikr) - Metres(left, p.ikl), p.baseline, jointsDt, dt, v.rv);
    hide Timed;
  }

  lemma {:induction false} MeasureIs(p: Params, dt: real, left: int, right: int)
    requires p.Usable() && dt > 0.0
    ensures Measure(p, dt, left, right).tv == Rate(0.5 * (Metres(right, p.ikr) + Metres(left, p.ikl)), dt)
    ensures Measure(p, dt, left, right).rv == Rate(Angle(Metres(right, p.ikr) - Metres(left, p.ikl), p.baseline), dt)
  {
  }

  /** The velocity, from the sum of the wheels. */
  lemma {:induction false} Forward(n: nat, a: real, lost: real, plus: real, jointsDt: real, dt: real, tv: real)
    requires Timed(jointsDt, n, dt) && a == Distance(tv, jointsDt) && plus == Times(n as real, 2.0 * a - 2.0 * lost)
    ensures Rate(0.5 * plus, dt) == tv - Rate(lost, jointsDt)
  {
    hide Rate;
    hide Distance;
    hide Times;
    RateScale(n, a - lost, jointsDt, dt);
    RateSub(a, lost, jointsDt);
    RateBack(tv, jointsDt);
    HalfTimes(n as real, a - lost);
    hide Timed;
  }

  lemma {:induction false} HalfTimes(m: real, x: real)
    ensures 0.5 * Times(m, 2.0 * x) == Times(m, x)
  {
  }

  /** The angle, from the difference of the wheels. */
  lemma {:induction false} TurnBack(n: nat, d: real, twist: real, minus: real, baseline: real, jointsDt: real,
                                    dt: real, rv: real)
    requires Timed(jointsDt, n, dt) && baseline != 0.0 && d == Distance(rv, jointsDt)
    requires minus == Times(n as real, Arc(baseline, d) - twist)
    ensures Rate(Angle(minus, baseline), dt) == rv - Rate(Angle(twist, baseline), jointsDt)
  {
    hide Rate;
    hide Angle;
    hide Arc;
    hide Distance;
    hide Times;
    AngleBack(n as real, d, twist, baseline);
    RateBack(rv, jointsDt);
    RateScale(n, d - Angle(twist, baseline), jointsDt, dt);
    RateSub(d, Angle(twist, baseline), jointsDt);
    hide Timed;
  }

  lemma {:induction false} Positive(m: real, dt: real)
    requires m > 0.0 && dt > 0.0
    ensures m * dt > 0.0
  {
  }

  lemma {:induction false} AngleBack(m: real, d: real, twist: real, baseline: real)
    requires baseline != 0.0
    ensures Angle(Times(m, Arc(baseline, d) - twist), baseline) == Times(m, d - Angle(twist, baseline))
  {
    var q := Angle(twist, baseline);
    assert twist == baseline * q;
    var x := d - q;
    assert baseline * d - baseline * q == baseline * x;
    assert m * (baseline * x) == (m * x) * baseline;
  }

  lemma {:induction false} RateScale(n: nat, x: real, jointsDt: real, dt: real)
    requires Timed(jointsDt, n, dt)
    ensures Rate(Times(n as real, x), dt) == Rate(x, jointsDt)
  {
    var q := x / jointsDt;
    assert x == q * jointsDt;
    assert n as real * x == q * dt;
  }

  lemma {:induction false} RateSub(x: real, y: real, dt: real)
    requires dt > 0.0
    ensures Rate(x - y, dt) == Rate(x, dt) - Rate(y, dt)
  {
  }

  lemma {:induction false} RateBack(v: real, dt: real)
    requires dt > 0.0
    ensures Rate(Distance(v, dt), dt) == v
  {
  }

  /** One wheel: n times the truncated speed, in metres. */
  lemma {:induction false} WheelMetres(ik: real, metres: real, n: nat)
    requires ik != 0.0
    ensures var speed := Ticks(ik, metres);
            Metres(n * Trunc(speed), ik) == Times(n as real, metres - Lost(ik, speed))
  {
    hide Trunc;
    var speed := Ticks(ik, metres);
    var q := Lost(ik, speed);
    assert Fraction(speed) == ik * q;
    var x := metres - q;
    assert ik * metres - ik * q == ik * x;
    assert Trunc(speed) as real == ik * x;
    assert (n * Trunc(speed)) as real == n as real * (ik * x);
    assert n as real * (ik * x) == n as real * x * ik;
  }

  lemma {:induction false} Sums(n: real, x: real, y: real)
    ensures Times(n, y) + Times(n, x) == Times(n, y + x) && Times(n, y) - Times(n, x) == Times(n, y - x)
  {
  }

  /** Metres per tick of one wheel. */
  function PerTick(ik: real): real
    requires ik != 0.0
  {
    AbsR(1.0 / ik)
  }

  /** The bounds of the measurement error. */
  function TvError(p: Params, jointsDt: real): real
    requires p.Usable() && jointsDt > 0.0
  {
    Rate(0.5 * (PerTick(p.ikl) + PerTick(p.ikr)), jointsDt)
  }

  function RvError(p: Params, jointsDt: real): real
    requires p.Usable() && jointsDt > 0.0
  {
    Rate(Angle(PerTick(p.ikl) + PerTick(p.ikr), AbsR(p.baseline)), jointsDt)
  }

  lemma {:induction false} LostBound(ik: real, speed: real)
    requires ik != 0.0
    ensures AbsR(Lost(ik, speed)) < PerTick(ik)
    ensures Lost(ik, speed) == 0.0 <==> Fraction(speed) == 0.0
  {
    TruncBound(speed);
    var f, q, k := Fraction(speed), Lost(ik, speed), 1.0 / ik;
    hide Trunc;
    hide Fraction;
    Reciprocal(f, ik);
    assert q == k * f;
    NonZero(ik);
    SmallFactor(k, f);
  }

  lemma {:induction false} NonZero(x: real)
    requires x != 0.0
    ensures 1.0 / x != 0.0
  {
  }

  lemma {:induction false} SmallFactor(k: real, f: real)
    requires k != 0.0 && AbsR(f) < 1.0
    ensures AbsR(k * f) < AbsR(k) && (k * f == 0.0 <==> f == 0.0)
  {
    Positive(AbsR(k), 1.0 - AbsR(f));
    assert AbsR(k * f) == AbsR(k) * AbsR(f);
  }

  lemma {:induction false} RateBound(x: real, limit: real, dt: real)
    requires dt > 0.0 && AbsR(x) < limit
    ensures AbsR(Rate(x, dt)) < Rate(limit, dt)
    ensures Rate(x, dt) == 0.0 <==> x == 0.0
  {
    var q, b := Rate(x, dt), Rate(limit, dt);
    assert q * dt == x;
    assert b * dt == limit;
    Compare(q, b, dt);
  }

  lemma {:induction false} Compare(q: real, b: real, k: real)
    requires k > 0.0 && AbsR(q * k) < b * k
    ensures AbsR(q) < b
  {
  }

  lemma {:induction false} AngleBound(x: real, limit: real, baseline: real)
    requires baseline != 0.0 && AbsR(x) < limit
    ensures AbsR(Angle(x, baseline)) < Angle(limit, AbsR(baseline))
    ensures Angle(x, baseline) == 0.0 <==> x == 0.0
  {
    var q, k := Angle(x, baseline), AbsR(baseline);
    assert q * baseline == x;
    var b := Angle(limit, k);
    assert b * k == limit;
    if baseline < 0.0 { assert q * k == 0.0 - q * baseline; }
    Compare(q, b, k);
  }

  /** The measured velocities miss the commanded ones by less than the bounds, and meet them if and only if
      neither tick lost a fraction. */
  lemma {:induction false} RoundTripBound(p: Params, jointsDt: real, n: nat, dt: real, v: Command)
    requires p.Usable() && Timed(jointsDt, n, dt)
    ensures var l, r := LeftSpeed(p, jointsDt, v), RightSpeed(p, jointsDt, v);
            var m := Measure(p, dt, n * Trunc(l), n * Trunc(r));
            && AbsR(m.tv - v.tv) < TvError(p, jointsDt)
            && AbsR(m.rv - v.rv) < RvError(p, jointsDt)
            && (m == v <==> Fraction(l) == 0.0 && Fraction(r) == 0.0)
  {
    RoundTripExact(p, jointsDt, n, dt, v);
    var l, r := LeftSpeed(p, jointsDt, v), RightSpeed(p, jointsDt, v);
    var fl, fr := Lost(p.ikl, l), Lost(p.ikr, r);
    LostBound(p.ikl, l);
    LostBound(p.ikr, r);
    var limit := PerTick(p.ikl) + PerTick(p.ikr);
    hide Lost;
    hide PerTick;
    hide LeftSpeed;
    hide RightSpeed;
    hide Fraction;
    hide Trunc;
    hide Measure;
    RateBound(0.5 * (fr + fl), 0.5 * limit, jointsDt);
    AngleBound(fr - fl, limit, p.baseline);
    RateBound(Angle(fr - fl, p.baseline), Angle(limit, AbsR(p.baseline)), jointsDt);
    hide Rate;
    hide Angle;
    var m := Measure(p, dt, n * Trunc(l), n * Trunc(r));
    assert m == v <==> m.tv == v.tv && m.rv == v.rv;
  }

  // ---------------------------------------------------------------- the closed loop

  /** In the largest velocities that can be commanded, neither the joint speeds nor the ticks of a whole
      update leave 16 bits. */
  predicate Gentle(p: Params, jointsDt: real, n: nat) {
    && WheelLimit(p, jointsDt, p.ikl) * n as real <= 32767.0
    && WheelLimit(p, jointsDt, p.ikr) * n as real <= 32767.0
  }

  function WheelLimit(p: Params, jointsDt: real, ik: real): real {
    Ticks(AbsR(ik), Distance(p.maxTv, jointsDt) + 0.5 * Arc(AbsR(p.baseline), Distance(p.maxRv, jointsDt)))
  }

  predicate InLimits(p: Params, v: Command) { AbsR(v.tv) <= p.maxTv && AbsR(v.rv) <= p.maxRv }

  /** One wheel at a limited speed, in either direction. */
  lemma {:induction false} WheelFits(p: Params, jointsDt: real, n: nat, v: Command, ik: real, speed: real)
    requires p.Limits() && jointsDt > 0.0 && n > 0 && InLimits(p, v)
    requires WheelLimit(p, jointsDt, ik) * n as real <= 32767.0
    requires speed == Ticks(ik, Along(jointsDt, v) - Across(p, jointsDt, v)) ||
             speed == Ticks(ik, Along(jointsDt, v) + Across(p, jointsDt, v))
    ensures FitsShort(Trunc(speed)) && FitsShort(n * Trunc(speed))
  {
    hide Distance;
    hide Arc;
    hide Ticks;
    hide Trunc;
    DistanceBound(v.tv, p.maxTv, jointsDt);
    DistanceBound(v.rv, p.maxRv, jointsDt);
    var d, most := Distance(v.rv, jointsDt), Distance(p.maxRv, jointsDt);
    ArcBound(p.baseline, d, most);
    var a, b := Along(jointsDt, v), Across(p, jointsDt, v);
    var limit := Distance(p.maxTv, jointsDt) + 0.5 * Arc(AbsR(p.baseline), most);
    TicksBound(ik, a - b, limit);
    TicksBound(ik, a + b, limit);
    TicksFit(speed, WheelLimit(p, jointsDt, ik), n);
  }

  lemma {:induction false} DistanceBound(v: real, limit: real, dt: real)
    requires AbsR(v) <= limit && dt > 0.0
    ensures AbsR(Distance(v, dt)) <= Distance(limit, dt)
  {
    FactorBound(dt, v, limit);
  }

  lemma {:induction false} ArcBound(baseline: real, angle: real, limit: real)
    requires AbsR(angle) <= limit
    ensures AbsR(Arc(baseline, angle)) <= Arc(AbsR(baseline), limit)
  {
    FactorBound(baseline, angle, limit);
  }

  lemma {:induction false} TicksBound(ik: real, metres: real, limit: real)
    requires AbsR(metres) <= limit
    ensures AbsR(Ticks(ik, metres)) <= Ticks(AbsR(ik), limit)
  {
    FactorBound(ik, metres, limit);
  }

  lemma {:induction false} MulMono(x: real, y: real, k: real)
    requires x <= y && k >= 0.0
    ensures x * k <= y * k && k * x <= k * y
  {
    assert (y - x) * k >= 0.0;
  }

  lemma {:induction false} FactorBound(k: real, x: real, limit: real)
    requires AbsR(x) <= limit
    ensures AbsR(k * x) <= AbsR(k) * limit
  {
    MulMono(AbsR(x), limit, AbsR(k));
    assert AbsR(k * x) == AbsR(k) * AbsR(x);
  }

  lemma {:induction false} TicksFit(speed: real, limit: real, n: nat)
    requires AbsR(speed) <= limit && n > 0 && limit * n as real <= 32767.0
    ensures FitsShort(Trunc(speed)) && FitsShort(n * Trunc(speed))
  {
    var t := Trunc(speed);
    assert AbsR(t as real) <= limit;
    MulMono(1.0, n as real, limit);
    MulMono(AbsR(t as real), limit, n as real);
    assert AbsR(t as real) == Abs(t) as real;
    assert Abs(t) as real * n as real == (Abs(t) * n) as real;
    assert Abs(t) * n <= 32767;
    assert Abs(n * t) == n * Abs(t);
  }

  /** The encoder of a joint that turns n times by exactly the commanded ticks. */
  function Turned(encoder: Word, n: nat, speed: real): Word { ToWord(encoder + n * Trunc(speed)) }

  /** One round: n joint cycles at the commanded speeds, then the next update. */
  function Next(p: Params, jointsDt: real, n: nat, dt: real, cmd: Command, d: Drive): Drive
    requires p.Usable() && dt > 0.0
  {
    var v := d.status.adjusted;
    Updated(p, dt, cmd, Turned(d.left, n, LeftSpeed(p, jointsDt, v)), Turned(d.right, n, RightSpeed(p, jointsDt, v)), d)
  }

  lemma {:induction false} TurnedDifference(encoder: Word, n: nat, speed: real)
    requires FitsShort(n * Trunc(speed))
    ensures Joints.Difference(Turned(encoder, n, speed), encoder) == n * Trunc(speed)
  {
    hide Trunc;
    ToShortDiff(encoder + n * Trunc(speed), encoder);
  }

  lemma {:induction false} NextMeasures(p: Params, jointsDt: real, n: nat, dt: real, cmd: Command, d: Drive)
    requires p.Usable() && p.Limits() && Timed(jointsDt, n, dt) && Gentle(p, jointsDt, n)
    requires InLimits(p, d.status.adjusted)
    ensures Representable(p, jointsDt, d.status.adjusted)
    ensures Adjusted(p, dt, cmd, Next(p, jointsDt, n, dt, cmd, d))
    ensures var v, m := d.status.adjusted, Next(p, jointsDt, n, dt, cmd, d).status.measured;
            AbsR(m.tv - v.tv) < TvError(p, jointsDt) && AbsR(m.rv - v.rv) < RvError(p, jointsDt)
  {
    hide Trunc;
    hide Turned;
    hide Measure;
    hide Adjust;
    hide WheelLimit;
    hide TvError;
    hide RvError;
    hide Joints.Difference;
    hide Ticks;
    hide Along;
    hide Across;
    var v := d.status.adjusted;
    var l, r := LeftSpeed(p, jointsDt, v), RightSpeed(p, jointsDt, v);
    WheelFits(p, jointsDt, n, v, p.ikl, l);
    WheelFits(p, jointsDt, n, v, p.ikr, r);
    TurnedDifference(d.left, n, l);
    TurnedDifference(d.right, n, r);
    RoundTripBound(p, jointsDt, n, dt, v);
  }

  /** A run of rounds under one command. */
  function Rounds(p: Params, jointsDt: real, n: nat, dt: real, cmd: Command, d: Drive, k: nat): Drive
    requires p.Usable() && dt > 0.0
  {
    if k == 0 then d else Next(p, jointsDt, n, dt, cmd, Rounds(p, jointsDt, n, dt, cmd, d, k - 1))
  }

  /** How far a velocity can still be from the desired one after k rounds. */
  function Remaining(start: real, step: real, error: real, k: nat): real {
    if k == 0 then start
    else
      var x := Remaining(start, step, error, k - 1) - step;
      (if x > 0.0 then x else 0.0) + error
  }

  /** One round brings a velocity nearer by a step, up to the measurement error. */
  lemma {:induction false} ApproachCloser(start: real, measured: real, desired: real, step: real, limit: real,
                                          after: real, error: real, k: nat)
    requires step >= 0.0 && AbsR(desired) <= limit
    requires AbsR(after - Approach(measured, desired, step, limit)) < error
    requires AbsR(measured - desired) <= Remaining(start, step, error, k)
    ensures AbsR(after - desired) <= Remaining(start, step, error, k + 1)
  {
  }

  lemma {:induction false} RemainingBound(start: real, step: real, error: real, k: nat)
    requires step >= error >= 0.0
    ensures var left := start - Times(k as real, step - error);
            Remaining(start, step, error, k) <= if left > error || k == 0 then left else error
  {
    if k > 0 {
      RemainingBound(start, step, error, k - 1);
      TimesNext(k, step - error);
    } else {
      TimesZero(step - error);
    }
    hide Times;
  }

  lemma {:induction false} TimesNext(k: nat, x: real)
    requires k > 0 && x >= 0.0
    ensures Times(k as real, x) == Times((k - 1) as real, x) + x && Times((k - 1) as real, x) >= 0.0
  {
    MulMono(0.0, (k - 1) as real, x);
  }

  lemma {:induction false} TimesZero(x: real)
    ensures Times(0.0, x) == 0.0
  {
  }

  lemma {:induction false} AdjustInLimits(p: Params, dt: real, desired: Command, measured: Command)
    requires p.Limits()
    ensures InLimits(p, Adjust(p, dt, desired, measured))
  {
  }

  /** The drive state after an update under the command. */
  predicate Adjusted(p: Params, dt: real, cmd: Command, d: Drive) {
    d.status.adjusted == Adjust(p, dt, cmd, d.status.measured)
  }

  lemma {:induction false} RoundsApproach(p: Params, jointsDt: real, n: nat, dt: real, cmd: Command, d: Drive, k: nat)
    requires p.Usable() && p.Limits() && Timed(jointsDt, n, dt) && Gentle(p, jointsDt, n)
    requires InLimits(p, cmd) && Adjusted(p, dt, cmd, d)
    ensures var e, m := Rounds(p, jointsDt, n, dt, cmd, d, k), d.status.measured;
            && Adjusted(p, dt, cmd, e)
            && AbsR(e.status.measured.tv - cmd.tv)
                 <= Remaining(AbsR(m.tv - cmd.tv), TvStep(p, dt, cmd.tv), TvError(p, jointsDt), k)
            && AbsR(e.status.measured.rv - cmd.rv)
                 <= Remaining(AbsR(m.rv - cmd.rv), RvStep(p, dt), RvError(p, jointsDt), k)
  {
    hide TvError;
    hide RvError;
    hide TvStep;
    hide RvStep;
    hide Remaining;
    hide AbsR;
    hide InLimits;
    hide Adjust;
    hide Gentle;
    hide Representable;
    hide Next;
    hide Approach;
    if k == 0 {
      RemainingZero(AbsR(d.status.measured.tv - cmd.tv), TvStep(p, dt, cmd.tv), TvError(p, jointsDt));
      RemainingZero(AbsR(d.status.measured.rv - cmd.rv), RvStep(p, dt), RvError(p, jointsDt));
    } else {
      var e := Rounds(p, jointsDt, n, dt, cmd, d, k - 1);
      RoundsApproach(p, jointsDt, n, dt, cmd, d, k - 1);
      AdjustInLimits(p, dt, cmd, e.status.measured);
      NextMeasures(p, jointsDt, n, dt, cmd, e);
      hide Timed;
      StepsPositive(p, dt, cmd);
      NextCloser(p, dt, cmd, d.status.measured, e, Next(p, jointsDt, n, dt, cmd, e), TvError(p, jointsDt),
                 RvError(p, jointsDt), k - 1);
    }
  }

  lemma {:induction false} RemainingZero(start: real, step: real, error: real)
    ensures Remaining(start, step, error, 0) == start
  {
  }

  /** Both velocities, one round nearer. */
  lemma {:induction false} NextCloser(p: Params, dt: real, cmd: Command, m: Command, e: Drive, after: Drive,
                                      tvError: real, rvError: real, k: nat)
    requires TvStep(p, dt, cmd.tv) >= 0.0 && RvStep(p, dt) >= 0.0 && InLimits(p, cmd) && Adjusted(p, dt, cmd, e)
    requires AbsR(after.status.measured.tv - e.status.adjusted.tv) < tvError
    requires AbsR(after.status.measured.rv - e.status.adjusted.rv) < rvError
    requires AbsR(e.status.measured.tv - cmd.tv) <= Remaining(AbsR(m.tv - cmd.tv), TvStep(p, dt, cmd.tv), tvError, k)
    requires AbsR(e.status.measured.rv - cmd.rv) <= Remaining(AbsR(m.rv - cmd.rv), RvStep(p, dt), rvError, k)
    ensures AbsR(after.status.measured.tv - cmd.tv)
              <= Remaining(AbsR(m.tv - cmd.tv), TvStep(p, dt, cmd.tv), tvError, k + 1)
    ensures AbsR(after.status.measured.rv - cmd.rv) <= Remaining(AbsR(m.rv - cmd.rv), RvStep(p, dt), rvError, k + 1)
  {
    hide TvStep;
    hide RvStep;
    hide Remaining;
    hide AbsR;
    hide Approach;
    var before, measured := e.status.measured, after.status.measured;
    ApproachCloser(AbsR(m.tv - cmd.tv), before.tv, cmd.tv, TvStep(p, dt, cmd.tv), p.maxTv, measured.tv, tvError, k);
    ApproachCloser(AbsR(m.rv - cmd.rv), before.rv, cmd.rv, RvStep(p, dt), p.maxRv, measured.rv, rvError, k);
  }

  lemma {:induction false} StepsPositive(p: Params, dt: real, cmd: Command)
    requires p.Limits() && dt > 0.0
    ensures TvStep(p, dt, cmd.tv) >= 0.0 && RvStep(p, dt) >= 0.0
  {
    MulMono(0.0, p.maxTa, dt);
    MulMono(0.0, p.maxRa, dt);
  }

  /** From any state, once the steps of k rounds cover the distance, the measured velocities stay within the
      measurement error of the desired ones. */
  lemma {:induction false} LoopSettles(p: Params, jointsDt: real, n: nat, dt: real, cmd: Command, d: Drive, k: nat)
    requires p.Usable() && p.Limits() && Timed(jointsDt, n, dt) && Gentle(p, jointsDt, n)
    requires InLimits(p, cmd) && Adjusted(p, dt, cmd, d) && k > 0
    requires TvStep(p, dt, cmd.tv) >= TvError(p, jointsDt) && RvStep(p, dt) >= RvError(p, jointsDt)
    requires AbsR(d.status.measured.tv - cmd.tv) <= Times(k as real, TvStep(p, dt, cmd.tv) - TvError(p, jointsDt))
    requires AbsR(d.status.measured.rv - cmd.rv) <= Times(k as real, RvStep(p, dt) - RvError(p, jointsDt))
    ensures var m := Rounds(p, jointsDt, n, dt, cmd, d, k).status.measured;
            AbsR(m.tv - cmd.tv) <= TvError(p, jointsDt) && AbsR(m.rv - cmd.rv) <= RvError(p, jointsDt)
  {
    ErrorsPositive(p, jointsDt);
    hide TvError;
    hide RvError;
    hide TvStep;
    hide RvStep;
    hide Times;
    hide Rounds;
    hide Remaining;
    RoundsApproach(p, jointsDt, n, dt, cmd, d, k);
    RemainingBound(AbsR(d.status.measured.tv - cmd.tv), TvStep(p, dt, cmd.tv), TvError(p, jointsDt), k);
    RemainingBound(AbsR(d.status.measured.rv - cmd.rv), RvStep(p, dt), RvError(p, jointsDt), k);
  }

  /** The parameters and timings that the firmware starts with. */
  const DEFAULTS := Params(-10000.0, 10000.0, 0.405, 1.0, 3.0, 4.0, 2.0, 15.0)

  /** With them, 20 cycles after a command within the limits a robot that stood still is measured within
      1 cm/s and 0.05 rad/s of it. */
  lemma {:induction false} DefaultsSettle(cmd: Command, d: Drive)
    requires InLimits(DEFAULTS, cmd) && Adjusted(DEFAULTS, 0.02, cmd, d) && d.status.measured == ZERO
    ensures var m := Rounds(DEFAULTS, 0.01, 2, 0.02, cmd, d, 20).status.measured;
            AbsR(m.tv - cmd.tv) <= 0.01 && AbsR(m.rv - cmd.rv) <= 0.05
  {
    DefaultErrors();
    DefaultSteps(cmd);
    hide TvError;
    hide RvError;
    hide TvStep;
    hide Rounds;
    hide Adjusted;
    LoopSettles(DEFAULTS, 0.01, 2, 0.02, cmd, d, 20);
  }

  lemma {:induction false} DefaultErrors()
    ensures TvError(DEFAULTS, 0.01) == 0.01 && 0.0 < RvError(DEFAULTS, 0.01) <= 0.05
  {
    assert PerTick(-10000.0) == 0.0001 && PerTick(10000.0) == 0.0001;
  }

  lemma {:induction false} DefaultSteps(cmd: Command)
    ensures DEFAULTS.Usable() && DEFAULTS.Limits() && Timed(0.01, 2, 0.02) && Gentle(DEFAULTS, 0.01, 2)
    ensures TvStep(DEFAULTS, 0.02, cmd.tv) >= 0.06 && RvStep(DEFAULTS, 0.02) == 0.3
  {
  }

  lemma {:induction false} ErrorsPositive(p: Params, jointsDt: real)
    requires p.Usable() && jointsDt > 0.0
    ensures TvError(p, jointsDt) > 0.0 && RvError(p, jointsDt) > 0.0
  {
    NonZero(p.ikl);
    NonZero(p.ikr);
    var sum := PerTick(p.ikl) + PerTick(p.ikr);
    AngleBound(0.0, sum, AbsR(p.baseline));
    RateBound(0.0, 0.5 * sum, jointsDt);
    RateBound(0.0, Angle(sum, AbsR(p.baseline)), jointsDt);
  }
}
