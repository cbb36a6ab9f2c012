/** orazio_joints_internal.c: one joint, from encoder difference through ramp and PID to the output. All
    arithmetic is 16 bits wide, as on the microcontroller; divisions go towards zero. */
module Joints {
  import opened Words

  const DISABLED: uint8 := 0
  const PWM: uint8 := 1
  const PID: uint8 := 2

  datatype Params = Params(kp: Short, ki: Short, kd: Short, maxI: Short, minPwm: Short, maxPwm: Short,
                           maxSpeed: Short, slope: Short)
  {
    /** Limits are magnitudes. */
    predicate Limits() { maxI >= 0 && minPwm >= 0 && maxPwm >= 0 && maxSpeed >= 0 && slope >= 0 }
  }

  datatype Control = Control(speed: Short, mode: uint8)

  /** The status of the joint and the variables of its controller. */
  datatype Joint = Joint(position: Word, speed: Short, desired: Short, pwm: Short, mode: uint8,
                         output: Short, ramp: Short, integral: Short, error: Short, previous: Short)

  function Clamp(v: Short, limit: Short): (r: Short)
    ensures limit >= 0 ==> Within(r, limit) && (Within(v, limit) ==> r == v)
  {
    if v > limit then limit else if v < Sub16(0, limit) then Sub16(0, limit) else v
  }

  /** The correction of the PID: three products, two sums, one division, in 16 bits. */
  function Correction(p: Params, error: Short, integral: Short, dError: Short): Short {
    ToShort(Quot(Add16(Add16(Mul16(p.kp, error), Mul16(p.ki, integral)), Mul16(p.kd, dError)), 32))
  }

  /** The PID branch: the encoder speed has been measured. */
  function PidStep(p: Params, speed: Short, j: Joint): Joint {
    var desired := Clamp(speed, p.maxSpeed);
    var error := Clamp(Sub16(desired, j.speed), p.slope);
    var ramp := Add16(j.speed, error);
    var integral := Clamp(Add16(j.integral, error), p.maxI);
    var clamped := Clamp(Add16(ramp, Correction(p, error, integral, Sub16(error, j.previous))), p.maxPwm);
    j.(desired := desired, error := error, ramp := ramp, integral := integral, previous := error,
       output := if clamped < p.minPwm && clamped > Sub16(0, p.minPwm) then 0 else clamped)
  }

  /** The wrapped difference of two encoder values. */
  function Difference(enc: Word, position: Word): Short { ToShort(enc - position) }

  /** JointController_handle with a new encoder value. */
  function Tick(p: Params, c: Control, enc: Word, j: Joint): Joint {
    var measured := j.(speed := Difference(enc, j.position), position := enc, mode := c.mode, pwm := j.output);
    if c.mode == DISABLED then measured.(output := 0, integral := 0)
    else if c.mode == PWM then measured.(output := c.speed)
    else if c.mode == PID then PidStep(p, c.speed, measured)
    else measured
  }

  function Cleared(j: Joint): Joint { j.(output := 0, ramp := 0, integral := 0, error := 0, previous := 0) }

  class JointController {
    var params: Params
    var control: Control
    // status
    var encoderPosition: Word
    var encoderSpeed: Short
    var desiredSpeed: Short
    var pwm: Short
    var mode: uint8
    // controller
    var output: Short
    var rampReference: Short
    var errorIntegral: Short
    var error: Short
    var previousError: Short

    function State(): Joint
      reads this
    {
      Joint(encoderPosition, encoderSpeed, desiredSpeed, pwm, mode, output, rampReference,
            errorIntegral, error, previousError)
    }

    constructor (params: Params, control: Control)
      ensures this.params == params && this.control == control && State() == Joint(0, 0, 0, 0, 0, 0, 0, 0, 0, 0)
    {
      this.params, this.control := params, control;
      encoderPosition, encoderSpeed, desiredSpeed, pwm, mode := 0, 0, 0, 0, 0;
      output, rampReference, errorIntegral, error, previousError := 0, 0, 0, 0, 0;
    }

    /** The variables of the controller to zero; the status stays. */
    method Reset()
      modifies this
      ensures State() == Cleared(old(State()))
      ensures params == old(params) && control == old(control)
    {
      output, rampReference, errorIntegral, error, previousError := 0, 0, 0, 0, 0;
    }

    method Handle(enc: Word)
      modifies this
      ensures State() == Tick(params, control, enc, old(State()))
      ensures params == old(params) && control == old(control)
      ensures control.mode == 0 ==> output == 0 && errorIntegral == 0
      ensures control.mode == 1 ==> output == control.speed && errorIntegral == old(errorIntegral)
      ensures control.mode == 2 ==> previousError == error
      ensures control.mode > 2 ==> output == old(output) && errorIntegral == old(errorIntegral)
    {
      hide Sub16;
      hide Add16;
      hide Difference;
      hide Correction;
      hide Clamp;
      encoderSpeed := Difference(enc, encoderPosition);
      encoderPosition := enc;
      mode := control.mode;
      pwm := output;
      if control.mode == DISABLED {
        output := 0;
        errorIntegral := 0;
      } else if control.mode == PWM {
        output := control.speed;
      } else if control.mode == PID {
        // reference
        desiredSpeed := Clamp(control.speed, params.maxSpeed);
        // ramp
        error := Clamp(Sub16(desiredSpeed, encoderSpeed), params.slope);
        rampReference := Add16(encoderSpeed, error);
        // pid
        errorIntegral := Add16(errorIntegral, error);
        errorIntegral := Clamp(errorIntegral, params.maxI);
        var dError := Sub16(error, previousError);
        output := Add16(rampReference, Correction(params, error, errorIntegral, dError));
        output := Clamp(output, params.maxPwm);
        if output < params.minPwm && output > Sub16(0, params.minPwm) { output := 0; }
        previousError := error;
      }
    }
  }

  // ---------------------------------------------------------------- whole runs

  /** One tick of a run: the control in force and the encoder value read. */
  datatype Input = Input(control: Control, enc: Word)

  function Run(p: Params, j: Joint, ins: seq<Input>): Joint
    decreases |ins|
  {
    if ins == [] then j else Run(p, Tick(p, ins[0].control, ins[0].enc, j), ins[1..])
  }

  /** What every tick keeps, in every mode: errors within the slope, the integral within its limit. */
  predicate Bounded(p: Params, j: Joint) {
    Within(j.error, p.slope) && Within(j.previous, p.slope) && Within(j.integral, p.maxI)
  }

  lemma {:induction false} TickBounded(p: Params, c: Control, enc: Word, j: Joint)
    requires p.Limits() && Bounded(p, j)
    ensures Bounded(p, Tick(p, c, enc, j))
  {
    hide Sub16;
    hide Add16;
    hide Difference;
    hide Correction;
  }

  lemma {:induction false} RunBounded(p: Params, j: Joint, ins: seq<Input>)
    requires p.Limits() && Bounded(p, j)
    ensures Bounded(p, Run(p, j, ins))
    decreases |ins|
  {
    if ins != [] {
      TickBounded(p, ins[0].control, ins[0].enc, j);
      hide Tick;
      RunBounded(p, Tick(p, ins[0].control, ins[0].enc, j), ins[1..]);
    }
  }

  /** After a PID tick the output is zero or a magnitude between the limits. */
  lemma {:induction false} OutputInRange(p: Params, c: Control, enc: Word, j: Joint)
    requires p.Limits() && c.mode == PID
    ensures var out := Tick(p, c, enc, j).output; out == 0 || p.minPwm <= Abs(out) <= p.maxPwm
    ensures Within(Tick(p, c, enc, j).desired, p.maxSpeed)
  {
    assert Sub16(0, p.minPwm) == 0 - p.minPwm;
    hide Sub16;
    hide Add16;
    hide Difference;
    hide Correction;
  }

  predicate Between(a: int, x: int, b: int) { a <= x <= b || b <= x <= a }

  /** The ramp lies between the measured and the desired speed - unless their difference leaves 16 bits.
      Then it is on the wrong side, except in two cases: no slope at all, or a slope that is larger than
      what the wrapped difference has left. */
  lemma {:induction false} RampBetweenIff(p: Params, c: Control, enc: Word, j: Joint)
    requires p.Limits() && c.mode == PID
    ensures var t := Tick(p, c, enc, j);
            Between(t.speed, t.ramp, t.desired) <==>
            FitsShort(t.desired - t.speed) || p.slope == 0 || p.slope >= 0x1_0000 - Abs(t.desired - t.speed)
  {
    var t := Tick(p, c, enc, j);
    RampCases(t.desired, t.speed, p.slope);
  }

  lemma {:induction false} RampCases(desired: Short, speed: Short, slope: Short)
    requires slope >= 0
    ensures var error := Clamp(Sub16(desired, speed), slope);
            Between(speed, Add16(speed, error), desired) <==>
            FitsShort(desired - speed) || slope == 0 || slope >= 0x1_0000 - Abs(desired - speed)
  {
    var d := desired - speed;
    if d > 0x7FFF {
      assert ToShort(d) == d - 0x1_0000;
    } else if d < -0x8000 {
      assert ToShort(d) == d + 0x1_0000;
    }
  }

  // ---------------------------------------------------------------- when nothing overflows

  /** Bounds on the parameters under which no 16-bit intermediate overflows while the measured speed
      stays within e. */
  predicate Safe(p: Params, e: nat) {
    && p.Limits()
    && e + p.maxSpeed <= 0x7FFF && e + p.slope <= 0x7FFF
    && p.maxI + p.slope <= 0x7FFF && 2 * p.slope <= 0x7FFF
    && Abs(p.kp) * p.slope + Abs(p.ki) * p.maxI + Abs(p.kd) * (2 * p.slope) <= 0x7FFF
    && e + p.slope + 0x400 <= 0x7FFF
  }

  function IdealClamp(v: int, limit: int): int {
    if v > limit then limit else if v < -limit then -limit else v
  }

  function IdealCorrection(p: Params, error: int, integral: int, dError: int): int {
    Quot(p.kp * error + p.ki * integral + p.kd * dError, 32)
  }

  /** The controller over the integers: what the formulas mean. */
  function IdealOutput(p: Params, speed: int, desired: int, integral: int, previous: int): int
    requires p.Limits()
  {
    var error := IdealClamp(desired - speed, p.slope);
    var correction := IdealCorrection(p, error, IdealClamp(integral + error, p.maxI), error - previous);
    var out := IdealClamp(speed + error + correction, p.maxPwm);
    if out < p.minPwm && out > 0 - p.minPwm then 0 else out
  }

  lemma {:induction false} ProductBound(k: int, x: int, limit: int)
    requires Within(x, limit)
    ensures Within(k * x, Abs(k) * limit)
  {
    if k >= 0 {
      MulMono(k, x, limit);
      MulMono(k, 0 - limit, x);
    } else {
      MulMono(0 - k, x, limit);
      MulMono(0 - k, 0 - limit, x);
    }
  }

  lemma {:induction false} MulMono(k: nat, x: int, y: int)
    requires x <= y
    ensures k * x <= k * y
  {
  }

  lemma {:induction false} QuotSmall(x: int)
    requires -0x8000 < x < 0x8000
    ensures -0x400 < Quot(x, 32) < 0x400
  {
  }

  /** The three products and their sums stay within 16 bits: the correction is what the formula says. */
  lemma {:induction false} CorrectionFits(p: Params, e: nat, error: Short, integral: Short, dError: Short)
    requires Safe(p, e) && Within(error, p.slope) && Within(integral, p.maxI) && Within(dError, 2 * p.slope)
    ensures Correction(p, error, integral, dError) == IdealCorrection(p, error, integral, dError)
    ensures Within(Correction(p, error, integral, dError), 0x400)
  {
    var x, y, z := p.kp * error, p.ki * integral, p.kd * dError;
    ProductBound(p.kp, error, p.slope);
    ProductBound(p.ki, integral, p.maxI);
    ProductBound(p.kd, dError, 2 * p.slope);
    FitsKeeps(x);
    FitsKeeps(y);
    FitsKeeps(z);
    FitsKeeps(x + y);
    FitsKeeps(x + y + z);
    QuotSmall(x + y + z);
    hide ToShort;
    hide Quot;
    FitsKeeps(Quot(x + y + z, 32));
  }

  lemma {:induction false} FitsKeeps(x: int)
    requires FitsShort(x)
    ensures ToShort(x) == x
  {
  }

  /** Everything before the correction. */
  lemma {:induction false} FrontFits(p: Params, e: nat, command: Short, speed: Short, integral: Short, previous: Short)
    requires Safe(p, e) && Within(speed, e) && Within(integral, p.maxI) && Within(previous, p.slope)
    ensures var desired := Clamp(command, p.maxSpeed);
            var error := Clamp(Sub16(desired, speed), p.slope);
            && desired == IdealClamp(command, p.maxSpeed)
            && FitsShort(desired - speed) && error == IdealClamp(desired - speed, p.slope)
            && Add16(speed, error) == speed + error
            && Clamp(Add16(integral, error), p.maxI) == IdealClamp(integral + error, p.maxI)
            && Sub16(error, previous) == error - previous
  {
  }

  /** Refinement: with safe parameters, a PID tick of the 16-bit controller is the integer controller. */
  lemma {:induction false} NoOverflow(p: Params, e: nat, c: Control, enc: Word, j: Joint)
    requires Safe(p, e) && Bounded(p, j) && c.mode == PID
    requires Within(Difference(enc, j.position), e)
    ensures var t := Tick(p, c, enc, j);
            && t.desired == IdealClamp(c.speed, p.maxSpeed)
            && t.error == IdealClamp(t.desired - t.speed, p.slope)
            && t.ramp == t.speed + t.error && Between(t.speed, t.ramp, t.desired)
            && t.integral == IdealClamp(j.integral + t.error, p.maxI)
            && t.output == IdealOutput(p, t.speed, t.desired, j.integral, j.previous)
  {
    hide ToShort;
    hide Correction;
    hide IdealCorrection;
    hide Sub16;
    hide Add16;
    hide Clamp;
    hide Difference;
    var t := Tick(p, c, enc, j);
    RampCases(t.desired, t.speed, p.slope);
    FrontFits(p, e, c.speed, t.speed, j.integral, j.previous);
    CorrectionFits(p, e, t.error, t.integral, Sub16(t.error, j.previous));
    RampSum(p, e, t.ramp, Correction(p, t.error, t.integral, Sub16(t.error, j.previous)));
    LastSteps(p, Add16(t.ramp, Correction(p, t.error, t.integral, Sub16(t.error, j.previous))));
  }

  lemma {:induction false} RampSum(p: Params, e: nat, ramp: Short, correction: Short)
    requires Safe(p, e) && Within(ramp, e + p.slope) && Within(correction, 0x400)
    ensures Add16(ramp, correction) == ramp + correction
  {
  }

  /** Clamp and dead zone. */
  lemma {:induction false} LastSteps(p: Params, x: Short)
    requires p.Limits()
    ensures Clamp(x, p.maxPwm) == IdealClamp(x, p.maxPwm) && Sub16(0, p.minPwm) == 0 - p.minPwm
  {
  }

  /** The parameters the firmware starts with are safe for measured speeds up to 31000 ticks. */
  lemma {:induction false} DefaultsAreSafe()
    ensures Safe(Params(255, 32, 0, 255, 0, 255, 100, 10), 31000)
  {
  }

  // ---------------------------------------------------------------- every mode

  /** What a tick does to output and controller in each mode, whatever came before. Disabled: no output, no
      integral. PWM: the commanded value itself. A mode that does not exist: the output stays. In all three the
      errors and the ramp stay as the last PID tick left them, so switching back goes on from there. */
  lemma {:induction false} ModesAct(p: Params, c: Control, enc: Word, j: Joint)
    ensures var t := Tick(p, c, enc, j);
            && t.mode == c.mode && t.pwm == j.output && t.position == enc && FitsShort(t.speed)
            && (t.speed - (enc - j.position)) % 0x1_0000 == 0
            && (c.mode == 0 ==> t.output == 0 && t.integral == 0)
            && (c.mode == 1 ==> t.output == c.speed && t.integral == j.integral)
            && (c.mode > 2 ==> t.output == j.output && t.integral == j.integral)
            && (c.mode != 2 ==> t.error == j.error && t.previous == j.previous && t.ramp == j.ramp &&
                                t.desired == j.desired)
  {
    ToShortMod(enc - j.position);
    hide ToShort;
    hide Clamp;
    hide Sub16;
    hide Add16;
    hide Correction;
  }

  /** Wrapping keeps a number modulo 2^16. */
  lemma {:induction false} ToShortMod(x: int)
    ensures FitsShort(ToShort(x)) && (ToShort(x) - x) % 0x1_0000 == 0
  {
    var q, w := x / 0x1_0000, x % 0x1_0000;
    assert ToShort(x) - x == if w < 0x8000 then 0x1_0000 * (0 - q) else 0x1_0000 * (0 - q - 1);
    Multiple(0 - q);
    Multiple(0 - q - 1);
  }

  lemma {:induction false} Multiple(k: int)
    ensures 0x1_0000 * k % 0x1_0000 == 0
  {
  }

  /** The correction is the weighted sum of the three terms over 32, cut off towards zero. */
  lemma {:induction false} CorrectionCutsOff(p: Params, e: nat, error: Short, integral: Short, dError: Short)
    requires Safe(p, e) && Within(error, p.slope) && Within(integral, p.maxI) && Within(dError, 2 * p.slope)
    ensures var sum := p.kp * error + p.ki * integral + p.kd * dError;
            var c := Correction(p, error, integral, dError);
            32 * Abs(c) <= Abs(sum) < 32 * Abs(c) + 32 && (sum > 0 ==> c >= 0) && (sum < 0 ==> c <= 0)
  {
    CorrectionFits(p, e, error, integral, dError);
    hide Correction;
    QuotCutsOff(p.kp * error + p.ki * integral + p.kd * dError);
  }

  lemma {:induction false} QuotCutsOff(x: int)
    ensures 32 * Abs(Quot(x, 32)) <= Abs(x) < 32 * Abs(Quot(x, 32)) + 32
    ensures (x > 0 ==> Quot(x, 32) >= 0) && (x < 0 ==> Quot(x, 32) <= 0)
  {
  }

  // ---------------------------------------------------------------- the controller over the integers

  /** What the integer controller carries from tick to tick. */
  datatype Ideal = Ideal(integral: int, previous: int, output: int)

  /** One tick of it, with the measured speed given. */
  function IdealTick(p: Params, c: Control, speed: int, i: Ideal): Ideal
    requires p.Limits()
  {
    if c.mode == DISABLED then i.(integral := 0, output := 0)
    else if c.mode == PWM then i.(output := c.speed)
    else if c.mode == PID then
      var desired := IdealClamp(c.speed, p.maxSpeed);
      var error := IdealClamp(desired - speed, p.slope);
      Ideal(IdealClamp(i.integral + error, p.maxI), error, IdealOutput(p, speed, desired, i.integral, i.previous))
    else i
  }

  /** The measured speeds of a run. */
  function SpeedsOf(position: Word, ins: seq<Input>): (ss: seq<Short>)
    ensures |ss| == |ins|
    decreases |ins|
  {
    if ins == [] then [] else [Difference(ins[0].enc, position)] + SpeedsOf(ins[0].enc, ins[1..])
  }

  function IdealRun(p: Params, i: Ideal, ins: seq<Input>, speeds: seq<Short>): Ideal
    requires p.Limits() && |ins| == |speeds|
    decreases |ins|
  {
    if ins == [] then i else IdealRun(p, IdealTick(p, ins[0].control, speeds[0], i), ins[1..], speeds[1..])
  }

  /** The part of a joint that the integer controller carries. */
  function IdealOf(j: Joint): Ideal { Ideal(j.integral, j.previous, j.output) }

  lemma {:induction false} TickIsIdeal(p: Params, e: nat, c: Control, enc: Word, j: Joint)
    requires Safe(p, e) && Bounded(p, j) && Within(Difference(enc, j.position), e)
    ensures IdealOf(Tick(p, c, enc, j)) == IdealTick(p, c, Difference(enc, j.position), IdealOf(j))
  {
    hide Difference;
    hide IdealOutput;
    hide IdealClamp;
    if c.mode == PID {
      NoOverflow(p, e, c, enc, j);
      PidRemembers(p, c, enc, j);
    }
    hide PidStep;
  }

  /** A PID tick remembers its error for the derivative term of the next one. */
  lemma {:induction false} PidRemembers(p: Params, c: Control, enc: Word, j: Joint)
    requires c.mode == PID
    ensures Tick(p, c, enc, j).previous == Tick(p, c, enc, j).error
    ensures Tick(p, c, enc, j).speed == Difference(enc, j.position)
  {
    hide Difference;
    hide Correction;
    hide Clamp;
    hide Sub16;
    hide Add16;
  }

  /** Along every run, with any modes in any order, the 16-bit controller with safe parameters is the one over the
      integers, which carries its own integral and its own previous error. */
  lemma {:induction false} RunIsIdeal(p: Params, e: nat, j: Joint, ins: seq<Input>)
    requires Safe(p, e) && Bounded(p, j)
    requires forall i | 0 <= i < |ins| :: Within(SpeedsOf(j.position, ins)[i], e)
    ensures IdealOf(Run(p, j, ins)) == IdealRun(p, IdealOf(j), ins, SpeedsOf(j.position, ins))
    decreases |ins|
  {
    if ins != [] {
      var c, enc := ins[0].control, ins[0].enc;
      var speeds := SpeedsOf(j.position, ins);
      assert speeds[1..] == SpeedsOf(enc, ins[1..]);
      assert Within(speeds[0], e);
      TickMeasures(p, c, enc, j);
      TickBounded(p, c, enc, j);
      TickIsIdeal(p, e, c, enc, j);
      hide Tick;
      hide Difference;
      hide Bounded;
      hide IdealTick;
      hide Safe;
      forall i | 0 <= i < |ins| - 1 ensures Within(SpeedsOf(enc, ins[1..])[i], e) {
        assert SpeedsOf(enc, ins[1..])[i] == speeds[i + 1];
      }
      SafeLimits(p, e);
      RunIsIdeal(p, e, Tick(p, c, enc, j), ins[1..]);
    }
  }

  lemma {:induction false} SafeLimits(p: Params, e: nat)
    requires Safe(p, e)
    ensures p.Limits()
  {
  }

  // ---------------------------------------------------------------- wrap-around conservation

  /** The encoder values that a shaft at unbounded positions produces. */
  ghost predicate Follows(ins: seq<Input>, path: seq<int>) {
    |ins| == |path| && forall i | 0 <= i < |ins| :: ins[i].enc == ToWord(path[i])
  }

  /** Sum of encoder_speed over a run. */
  function SpeedSum(p: Params, j: Joint, ins: seq<Input>): int
    decreases |ins|
  {
    if ins == [] then 0
    else
      var t := Tick(p, ins[0].control, ins[0].enc, j);
      t.speed + SpeedSum(p, t, ins[1..])
  }

  function End(start: int, path: seq<int>): int {
    if path == [] then start else path[|path| - 1]
  }

  /** Each tick moves the shaft by a displacement that fits 16 bits. */
  ghost predicate Slow(start: int, path: seq<int>)
    decreases |path|
  {
    path == [] || (FitsShort(path[0] - start) && Slow(path[0], path[1..]))
  }

  lemma {:induction false} TickMeasures(p: Params, c: Control, enc: Word, j: Joint)
    ensures Tick(p, c, enc, j).speed == Difference(enc, j.position) && Tick(p, c, enc, j).position == enc
  {
  }

  /** Although the position wraps at 2^16, the speeds add up to the true displacement. */
  lemma {:induction false} SpeedsConserve(p: Params, j: Joint, ins: seq<Input>, start: int, path: seq<int>)
    requires j.position == ToWord(start) && Follows(ins, path) && Slow(start, path)
    ensures SpeedSum(p, j, ins) == End(start, path) - start
    ensures Run(p, j, ins).position == ToWord(End(start, path))
    decreases |ins|
  {
    if ins != [] {
      var t := Tick(p, ins[0].control, ins[0].enc, j);
      TickMeasures(p, ins[0].control, ins[0].enc, j);
      ToShortDiff(path[0], start);
      hide Tick;
      hide ToWord;
      FitsKeeps(path[0] - start);
      assert Follows(ins[1..], path[1..]);
      SpeedsConserve(p, t, ins[1..], path[0], path[1..]);
      assert End(path[0], path[1..]) == End(start, path);
    }
  }

  /** The odometry samples the position more rarely. Its difference of two samples is the sum of the joint
      speeds of its period if and only if that sum fits 16 bits. */
  lemma {:induction false} OdometryAgreesIff(p: Params, j: Joint, ins: seq<Input>, start: int, path: seq<int>)
    requires j.position == ToWord(start) && Follows(ins, path) && Slow(start, path)
    ensures Difference(Run(p, j, ins).position, j.position) == SpeedSum(p, j, ins) <==> FitsShort(SpeedSum(p, j, ins))
  {
    SpeedsConserve(p, j, ins, start, path);
    ToShortDiff(End(start, path), start);
  }
}
