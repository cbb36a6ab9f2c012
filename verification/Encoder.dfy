/** arch/atmega2560/encoder.c: two quadrature encoders on one port, decoded on every change. */
module Encoders {
  import opened Words

  const NUM_ENCODERS: nat := 2

  /** The two bits of one encoder. */
  type Bits = x: int | 0 <= x < 4

  /** _transition_table, indexed by previous bits (high) and new bits (low). */
  const TRANSITIONS: seq<int> := [0, 1, -1, 0, -1, 0, 0, 1, 1, 0, 0, -1, 0, -1, 1, 0]

  function Entry(i: nat): int
    requires i < 16
  {
    TRANSITIONS[i]
  }

  function Delta(ps: Bits, ns: Bits): (d: int)
    ensures -1 <= d <= 1
  {
    Entry(ns + 4 * ps)
  }

  /** The bits of encoder e in a port value. */
  function BitsOf(port: int, e: nat): Bits
    requires 0 <= port < 16 && e < NUM_ENCODERS
  {
    if e == 0 then port % 4 else port / 4
  }

  /** The place of two bits in the order 00, 01, 11, 10. */
  function Phase(b: Bits): Bits {
    if b == 2 then 3 else if b == 3 then 2 else b
  }

  /** The bits at a place of that order, for any position. */
  function Gray(position: int): Bits {
    var p := position % 4;
    if p == 2 then 3 else if p == 3 then 2 else p
  }

  type Port = x: int | 0 <= x < 16

  /** PINB & ENCODER_MASK */
  function Masked(pinb: uint8): Port { pinb as int % 16 }

  /** >>= 2 */
  function Shift(port: Port): Port { port / 4 }

  /** A port value after some shifts by two bits. */
  function Shifted(port: Port, e: nat): Port {
    if e == 0 then port else Shift(Shifted(port, e - 1))
  }

  /** The table index of the lowest two bits of a new and a previous port value. */
  function Index(ns: Port, ps: Port): (i: nat)
    ensures i < 16
  {
    ns % 4 + 4 * (ps % 4)
  }

  lemma {:induction false} ShiftedBits(port: Port, e: nat)
    requires e < NUM_ENCODERS
    ensures Shifted(port, e) % 4 == BitsOf(port, e) && Shifted(port, e + 1) == Shift(Shifted(port, e))
  {
  }

  lemma {:induction false} IndexOfBits(before: Port, after: Port, e: nat)
    requires e < NUM_ENCODERS
    ensures Entry(Index(Shifted(after, e), Shifted(before, e))) == Delta(BitsOf(before, e), BitsOf(after, e))
    ensures Shifted(after, e + 1) == Shift(Shifted(after, e)) && Shifted(before, e + 1) == Shift(Shifted(before, e))
  {
    ShiftedBits(before, e);
    ShiftedBits(after, e);
  }

  lemma {:induction false} FirstShift(port: Port)
    ensures Shifted(port, 0) == port
  {
  }

  class Encoder {
    var status: Port                 // _encoder_status
    const current: array<Word>       // _encoder_current_value
    const sampled: array<Word>       // _encoder_sampled_value

    ghost predicate Valid()
      reads this
    {
      current.Length == NUM_ENCODERS && sampled.Length == NUM_ENCODERS && current != sampled
    }

    constructor ()
      ensures Valid() && fresh(current) && fresh(sampled)
      ensures status == 0 && current[..] == [0, 0] && sampled[..] == [0, 0]
    {
      current := new Word[NUM_ENCODERS](_ => 0);
      sampled := new Word[NUM_ENCODERS](_ => 0);
      status := 0;
    }

    /** The interrupt handler, given the value of the port. */
    method Interrupt(pinb: uint8)
      requires Valid()
      modifies this, current
      ensures Valid() && status == Masked(pinb)
      ensures current[..] == Counted(old(current[..]), old(status), status)
    {
      var portValue := Masked(pinb);
      var ns, ps := portValue, status;
      hide Masked;
      hide Shift;
      hide Entry;
      hide Delta;
      hide ToWord;
      hide BitsOf;
      hide Index;
      ghost var before := current[..];
      ghost var next := Counted(before, status, portValue);
      CountedAt(before, status, portValue);
      FirstShift(portValue);
      FirstShift(status);
      hide Shifted;
      hide Counted;
      for e := 0 to NUM_ENCODERS
        invariant ns == Shifted(portValue, e) && ps == Shifted(status, e)
        invariant forall k | 0 <= k < NUM_ENCODERS :: current[k] == if k < e then next[k] else before[k]
        invariant status == old(status)
      {
        IndexOfBits(status, portValue, e);
        current[e] := ToWord(current[e] + Entry(Index(ns, ps)));
        ns := Shift(ns);
        ps := Shift(ps);
      }
      status := portValue;
    }

    method Sample()
      requires Valid()
      modifies sampled
      ensures sampled[..] == current[..]
    {
      for e := 0 to NUM_ENCODERS
        invariant forall k | 0 <= k < e :: sampled[k] == current[k]
      {
        sampled[e] := current[e];
      }
    }

  }

  /** The counters after the port has gone from one value to another. */
  function Counted(counts: seq<Word>, before: Port, after: Port): (c: seq<Word>)
    requires |counts| == NUM_ENCODERS
    ensures |c| == NUM_ENCODERS
  {
    [ToWord(counts[0] + Delta(BitsOf(before, 0), BitsOf(after, 0))),
     ToWord(counts[1] + Delta(BitsOf(before, 1), BitsOf(after, 1)))]
  }

  lemma {:induction false} CountedAt(counts: seq<Word>, before: Port, after: Port)
    requires |counts| == NUM_ENCODERS
    ensures forall e | 0 <= e < NUM_ENCODERS ::
              Counted(counts, before, after)[e] == ToWord(counts[e] + Delta(BitsOf(before, e), BitsOf(after, e)))
  {
  }

  /** The counters after a sequence of interrupts. */
  function CountedAll(counts: seq<Word>, before: Port, ports: seq<Port>): (c: seq<Word>)
    requires |counts| == NUM_ENCODERS
    ensures |c| == NUM_ENCODERS
    decreases |ports|
  {
    if ports == [] then counts else CountedAll(Counted(counts, before, ports[0]), ports[0], ports[1..])
  }

  function LastPort(before: Port, ports: seq<Port>): Port {
    if ports == [] then before else ports[|ports| - 1]
  }

  /** The sum of the table entries of one encoder over a sequence of interrupts. */
  function Travel(e: nat, before: Port, ports: seq<Port>): int
    requires e < NUM_ENCODERS
    decreases |ports|
  {
    if ports == [] then 0 else Delta(BitsOf(before, e), BitsOf(ports[0], e)) + Travel(e, ports[0], ports[1..])
  }

  lemma {:induction false} CounterIsTravel(counts: seq<Word>, before: Port, ports: seq<Port>, e: nat)
    requires |counts| == NUM_ENCODERS && e < NUM_ENCODERS
    ensures CountedAll(counts, before, ports)[e] == ToWord(counts[e] + Travel(e, before, ports))
    decreases |ports|
  {
    hide Delta;
    hide ToWord;
    if ports == [] {
      WordKeeps(counts[e]);
    } else {
      CounterIsTravel(Counted(counts, before, ports[0]), ports[0], ports[1..], e);
      WordAdd(counts[e] + Delta(BitsOf(before, e), BitsOf(ports[0], e)), Travel(e, ports[0], ports[1..]));
    }
  }

  // ---------------------------------------------------------------- displacement

  /** The port shows an encoder at some position. */
  predicate ShowsAt(port: Port, e: nat, position: int)
    requires e < NUM_ENCODERS
  {
    BitsOf(port, e) == Gray(position)
  }

  /** The positions of a shaft that moves by at most one step between interrupts, as the port shows them. */
  ghost predicate Walk(e: nat, start: int, ports: seq<Port>, path: seq<int>)
    requires e < NUM_ENCODERS
    decreases |ports|
  {
    |path| == |ports| &&
    (ports == [] ||
     (-1 <= path[0] - start <= 1 && ShowsAt(ports[0], e, path[0]) && Walk(e, path[0], ports[1..], path[1..])))
  }

  function End(start: int, path: seq<int>): int {
    if path == [] then start else path[|path| - 1]
  }

  /** The table counts exactly the steps of the shaft. */
  lemma {:induction false} TravelIsDisplacement(e: nat, before: Port, ports: seq<Port>, start: int, path: seq<int>)
    requires e < NUM_ENCODERS && ShowsAt(before, e, start) && Walk(e, start, ports, path)
    ensures Travel(e, before, ports) == End(start, path) - start
    ensures ShowsAt(LastPort(before, ports), e, End(start, path))
    decreases |ports|
  {
    hide Gray;
    hide Delta;
    if ports != [] {
      GrayStep(start, path[0]);
      TravelIsDisplacement(e, ports[0], ports[1..], path[0], path[1..]);
      assert End(path[0], path[1..]) == End(start, path) && LastPort(ports[0], ports[1..]) == LastPort(before, ports);
    }
  }

  lemma {:induction false} GrayStep(x: int, y: int)
    requires -1 <= y - x <= 1
    ensures Delta(Gray(x), Gray(y)) == y - x
  {
    assert y % 4 == (x % 4 + (y - x) + 4) % 4;
  }

  /** From the zeroed status the counter of an encoder is its displacement modulo 2^16, and modulo 4 it is
      the phase of the bits on the port. */
  lemma {:induction false} CounterIsDisplacement(ports: seq<Port>, path: seq<int>, e: nat)
    requires e < NUM_ENCODERS && Walk(e, 0, ports, path)
    ensures CountedAll([0, 0], 0, ports)[e] == ToWord(End(0, path))
    ensures CountedAll([0, 0], 0, ports)[e] % 4 == Phase(BitsOf(LastPort(0, ports), e))
  {
    hide Travel;
    hide CountedAll;
    hide LastPort;
    hide Walk;
    hide Delta;
    hide Phase;
    CounterIsTravel([0, 0], 0, ports, e);
    TravelIsDisplacement(e, 0, ports, 0, path);
    PhaseOfGray(End(0, path));
  }

  lemma {:induction false} PhaseOfGray(position: int)
    ensures ToWord(position) % 4 == Phase(Gray(position))
  {
    assert position == 0x1_0000 * (position / 0x1_0000) + ToWord(position);
  }

  // ---------------------------------------------------------------- all sequences, also with missed steps

  /** Both bits changed at once: an interrupt was missed, and the table counts nothing. */
  predicate Jump(ps: Bits, ns: Bits) { Phase(ns) - Phase(ps) == 2 || Phase(ns) - Phase(ps) == -2 }

  function Jumps(e: nat, before: Port, ports: seq<Port>): nat
    requires e < NUM_ENCODERS
    decreases |ports|
  {
    if ports == [] then 0
    else (if Jump(BitsOf(before, e), BitsOf(ports[0], e)) then 1 else 0) + Jumps(e, ports[0], ports[1..])
  }

  lemma {:induction false} DeltaPhase(ps: Bits, ns: Bits)
    ensures Same4(Phase(ns) - Phase(ps), Delta(ps, ns) + (if Jump(ps, ns) then 2 else 0))
  {
    DeltaIs(ps, ns);
    hide Delta;
    hide Phase;
  }

  /** The table: the shorter way around the circle of phases, 0 for the opposite one. */
  lemma {:induction false} DeltaIs(ps: Bits, ns: Bits)
    ensures var d := Phase(ns) - Phase(ps);
            Delta(ps, ns) == if d == 1 || d == -3 then 1 else if d == -1 || d == 3 then -1 else 0
  {
  }

  /** x and y have the same remainder modulo 4. */
  predicate Same4(x: int, y: int) { (x - y) % 4 == 0 }

  lemma {:induction false} Same4Add(a: int, b: int, c: int, d: int)
    requires Same4(a, b) && Same4(c, d)
    ensures Same4(a + c, b + d)
  {
  }

  /** Phase change = table entries + two for each missed step, modulo 4. */
  lemma {:induction false} TravelPhase(e: nat, before: Port, ports: seq<Port>)
    requires e < NUM_ENCODERS
    ensures Same4(Phase(BitsOf(LastPort(before, ports), e)) - Phase(BitsOf(before, e)),
                  Travel(e, before, ports) + 2 * Jumps(e, before, ports))
    decreases |ports|
  {
    hide Delta;
    hide Phase;
    if ports != [] {
      var p, q := BitsOf(before, e), BitsOf(ports[0], e);
      DeltaPhase(p, q);
      TravelPhase(e, ports[0], ports[1..]);
      assert LastPort(ports[0], ports[1..]) == LastPort(before, ports);
      Same4Add(Phase(q) - Phase(p), Delta(p, q) + (if Jump(p, q) then 2 else 0),
               Phase(BitsOf(LastPort(before, ports), e)) - Phase(q),
               Travel(e, ports[0], ports[1..]) + 2 * Jumps(e, ports[0], ports[1..]));
    }
  }

  /** For every sequence of interrupts: the counter shows the phase of the port if and only if the number
      of missed steps is even. */
  lemma {:induction false} PhaseIffEvenJumps(ports: seq<Port>, e: nat)
    requires e < NUM_ENCODERS
    ensures CountedAll([0, 0], 0, ports)[e] % 4 == Phase(BitsOf(LastPort(0, ports), e)) <==> Jumps(e, 0, ports) % 2 == 0
  {
    hide Delta;
    hide Travel;
    hide Jumps;
    hide CountedAll;
    hide LastPort;
    hide BitsOf;
    hide Phase;
    CounterIsTravel([0, 0], 0, ports, e);
    TravelPhase(e, 0, ports);
    ZeroPhase(e);
    hide ToWord;
    EvenIff(Phase(BitsOf(LastPort(0, ports), e)), Travel(e, 0, ports), Jumps(e, 0, ports));
  }

  lemma {:induction false} ZeroPhase(e: nat)
    requires e < NUM_ENCODERS
    ensures Phase(BitsOf(0, e)) == 0
  {
  }

  lemma {:induction false} EvenIff(phase: Bits, travel: int, jumps: nat)
    requires Same4(phase, travel + 2 * jumps)
    ensures ToWord(travel) % 4 == phase <==> jumps % 2 == 0
  {
    WordMod4(travel);
    hide ToWord;
    TwiceMod4(jumps);
    var r := travel % 4;
    assert travel == 4 * (travel / 4) + r;
    SmallMod4(phase, r, travel / 4, jumps);
  }

  lemma {:induction false} WordMod4(x: int)
    ensures ToWord(x) % 4 == x % 4
  {
    var k := x / 0x1_0000;
    assert x == 4 * (0x4000 * k) + ToWord(x);
    Mod4Shift(ToWord(x), 0x4000 * k);
  }

  lemma {:induction false} Mod4Shift(x: int, k: int)
    ensures (x + 4 * k) % 4 == x % 4
  {
  }

  lemma {:induction false} TwiceMod4(jumps: nat)
    ensures 2 * jumps == 4 * (jumps / 2) + if jumps % 2 == 0 then 0 else 2
  {
  }

  lemma {:induction false} SmallMod4(phase: Bits, r: Bits, k: int, jumps: nat)
    requires (phase - (4 * k + r + 2 * jumps)) % 4 == 0
    ensures r == phase <==> jumps % 2 == 0
  {
    var half, odd := jumps / 2, jumps % 2;
    assert jumps == 2 * half + odd;
    Mod4Shift(phase - r - 2 * odd, 0 - k - half);
  }

  // ---------------------------------------------------------------- replay, independence

  lemma {:induction false} DeltaAntisymmetric(ps: Bits, ns: Bits)
    ensures Delta(ns, ps) == -Delta(ps, ns)
  {
  }

  lemma {:induction false} TravelSnoc(e: nat, before: Port, ports: seq<Port>, p: Port)
    requires e < NUM_ENCODERS
    ensures Travel(e, before, ports + [p]) ==
            Travel(e, before, ports) + Delta(BitsOf(LastPort(before, ports), e), BitsOf(p, e))
    decreases |ports|
  {
    hide Delta;
    hide BitsOf;
    if ports == [] {
      assert [p][1..] == [];
    } else {
      TravelSnoc(e, ports[0], ports[1..], p);
      assert (ports + [p])[1..] == ports[1..] + [p];
    }
  }

  lemma {:induction false} TravelConcat(e: nat, before: Port, a: seq<Port>, b: seq<Port>)
    requires e < NUM_ENCODERS
    ensures Travel(e, before, a + b) == Travel(e, before, a) + Travel(e, LastPort(before, a), b)
    decreases |a|
  {
    hide Delta;
    hide BitsOf;
    if a == [] {
      assert a + b == b;
    } else {
      TravelConcat(e, a[0], a[1..], b);
      assert (a + b)[1..] == a[1..] + b;
    }
  }

  /** Way back: from the last port value through the earlier ones to the first. */
  function WayBack(before: Port, ports: seq<Port>): (r: seq<Port>)
    ensures |r| == |ports|
    decreases |ports|
  {
    if ports == [] then [] else WayBack(ports[0], ports[1..]) + [before]
  }

  lemma {:induction false} WayBackTravel(e: nat, before: Port, ports: seq<Port>)
    requires e < NUM_ENCODERS
    ensures Travel(e, LastPort(before, ports), WayBack(before, ports)) == -Travel(e, before, ports)
    ensures LastPort(LastPort(before, ports), WayBack(before, ports)) == before
    decreases |ports|
  {
    if ports != [] {
      WayBackTravel(e, ports[0], ports[1..]);
      TravelSnoc(e, LastPort(before, ports), WayBack(ports[0], ports[1..]), before);
      DeltaAntisymmetric(BitsOf(before, e), BitsOf(ports[0], e));
      assert LastPort(ports[0], ports[1..]) == LastPort(before, ports);
    }
  }

  /** Replaying any sequence backwards restores both counters, whatever was missed. */
  lemma {:induction false} ReplayRestores(counts: seq<Word>, before: Port, ports: seq<Port>)
    requires |counts| == NUM_ENCODERS
    ensures CountedAll(counts, before, ports + WayBack(before, ports)) == counts
  {
    hide CountedAll;
    hide ToWord;
    ReplayRestoresOne(counts, before, ports, 0);
    ReplayRestoresOne(counts, before, ports, 1);
  }

  lemma {:induction false} ReplayRestoresOne(counts: seq<Word>, before: Port, ports: seq<Port>, e: nat)
    requires |counts| == NUM_ENCODERS && e < NUM_ENCODERS
    ensures CountedAll(counts, before, ports + WayBack(before, ports))[e] == counts[e]
  {
    hide Travel;
    hide WayBack;
    hide LastPort;
    hide BitsOf;
    hide Delta;
    hide CountedAll;
    hide ToWord;
    CounterIsTravel(counts, before, ports + WayBack(before, ports), e);
    TravelConcat(e, before, ports, WayBack(before, ports));
    WayBackTravel(e, before, ports);
    WordKeeps(counts[e]);
  }

  /** The four low pins of the port are those of the encoders, two each; the others are ignored. */
  lemma {:induction false} MaskedPins(pinb: uint8)
    ensures BitsOf(Masked(pinb), 0) == pinb as int % 4 && BitsOf(Masked(pinb), 1) == pinb as int / 4 % 4
  {
  }

  /** The other encoder on the port has no influence. */
  lemma {:induction false} Independent(e: nat, before: Port, ports: seq<Port>, before': Port, ports': seq<Port>)
    requires e < NUM_ENCODERS && |ports| == |ports'| && BitsOf(before, e) == BitsOf(before', e)
    requires forall i | 0 <= i < |ports| :: BitsOf(ports[i], e) == BitsOf(ports'[i], e)
    ensures CountedAll([0, 0], before, ports)[e] == CountedAll([0, 0], before', ports')[e]
  {
    hide Delta;
    hide ToWord;
    SameTravel(e, before, ports, before', ports');
    CounterIsTravel([0, 0], before, ports, e);
    CounterIsTravel([0, 0], before', ports', e);
  }

  lemma {:induction false} SameTravel(e: nat, before: Port, ports: seq<Port>, before': Port, ports': seq<Port>)
    requires e < NUM_ENCODERS && |ports| == |ports'| && BitsOf(before, e) == BitsOf(before', e)
    requires forall i | 0 <= i < |ports| :: BitsOf(ports[i], e) == BitsOf(ports'[i], e)
    ensures Travel(e, before, ports) == Travel(e, before', ports')
    decreases |ports|
  {
    hide Delta;
    hide ToWord;
    if ports != [] { SameTravel(e, ports[0], ports[1..], ports'[0], ports'[1..]); }
  }
}
