/** deferred_packet_handler.c on values: accepted packets wait in arrival order until they are
    processed; each type has a limited number of buffers, and at most eight packets wait. */
module Deferred {
  import opened Words
  import opened Packets
  import opened Receiver
  import opened Delivery

  /** Number of buffers of each installed type. */
  type Caps = map<uint8, nat>

  /** The receiver, the packets waiting, and those whose action has run. */
  datatype State = State(rx: Rx, pending: seq<Packet>, done: seq<Packet>)

  datatype Event = Byte(c: uint8) | Process

  const Fresh := State(SeekAA, [], [])

  function Count(ps: seq<Packet>, t: uint8): (n: nat)
    ensures n <= |ps|
  {
    if ps == [] then 0 else Count(ps[..|ps| - 1], t) + Hit(ps[|ps| - 1], t)
  }

  function Hit(p: Packet, t: uint8): nat {
    if p != [] && p[0] == t then 1 else 0
  }

  /** Whether initialize_buffer finds a free buffer now. */
  predicate Room(caps: Caps, s: State) {
    s.rx.SeekSize? && s.rx.typ in caps && Count(s.pending, s.rx.typ) < caps[s.rx.typ]
  }

  function InputOf(caps: Caps, s: State, c: uint8): Input {
    Input(c, Room(caps, s))
  }

  function ByteStep(ops: OpTable, caps: Caps, s: State, c: uint8): State {
    var i := InputOf(caps, s, c);
    State(Step(ops, s.rx, i).0,
          if |s.pending| < PENDING_MAX then s.pending + Delivered(ops, s.rx, i) else s.pending,
          s.done)
  }

  /** processPendingPackets: every waiting packet gets its action, the oldest first. */
  function ProcessStep(s: State): State {
    State(s.rx, [], s.done + s.pending)
  }

  function DStep(ops: OpTable, caps: Caps, s: State, e: Event): State {
    match e
    case Byte(c) => ByteStep(ops, caps, s, c)
    case Process => ProcessStep(s)
  }

  function DRun(ops: OpTable, caps: Caps, s: State, es: seq<Event>): State
    decreases |es|
  {
    if es == [] then s else DRun(ops, caps, DStep(ops, caps, s, es[0]), es[1..])
  }

  /** The bytes of a run with the buffer answer each of them would get. */
  function Inputs(ops: OpTable, caps: Caps, s: State, es: seq<Event>): seq<Input>
    decreases |es|
  {
    if es == [] then []
    else
      var rest := Inputs(ops, caps, DStep(ops, caps, s, es[0]), es[1..]);
      if es[0].Byte? then [InputOf(caps, s, es[0].c)] + rest else rest
  }

  /** The packet that this event completes with a valid checksum, if any. */
  function Arrived(ops: OpTable, caps: Caps, s: State, e: Event): (ps: seq<Packet>)
    ensures |ps| <= 1
  {
    if e.Byte? then Delivered(ops, s.rx, InputOf(caps, s, e.c)) else []
  }

  function Arrivals(ops: OpTable, caps: Caps, s: State, es: seq<Event>): seq<Packet>
    decreases |es|
  {
    if es == [] then [] else Arrived(ops, caps, s, es[0]) + Arrivals(ops, caps, DStep(ops, caps, s, es[0]), es[1..])
  }

  /** The arrivals that find eight packets waiting. */
  function Dropped(ops: OpTable, caps: Caps, s: State, es: seq<Event>): seq<Packet>
    decreases |es|
  {
    if es == [] then []
    else
      (if |s.pending| >= PENDING_MAX then Arrived(ops, caps, s, es[0]) else []) +
      Dropped(ops, caps, DStep(ops, caps, s, es[0]), es[1..])
  }

  // ---------------------------------------------------------------- exactly once, in order

  /** The receiver inside the deferred handler is the plain receiver on the same bytes. */
  lemma {:induction false} ReceiverProjection(ops: OpTable, caps: Caps, s: State, es: seq<Event>)
    ensures Run(ops, s.rx, Inputs(ops, caps, s, es)) ==
            Result(DRun(ops, caps, s, es).rx, Arrivals(ops, caps, s, es))
    decreases |es|
  {
    if es != [] {
      var next := DStep(ops, caps, s, es[0]);
      var rest := Inputs(ops, caps, next, es[1..]);
      ReceiverProjection(ops, caps, next, es[1..]);
      if es[0].Byte? {
        var i := InputOf(caps, s, es[0].c);
        assert ([i] + rest)[1..] == rest;
      } else {
        assert [] + Arrivals(ops, caps, next, es[1..]) == Arrivals(ops, caps, next, es[1..]);
      }
    }
  }

  /** One event: an arrival joins the queue, unless eight packets wait. */
  lemma {:induction false} StepQueue(ops: OpTable, caps: Caps, s: State, e: Event)
    ensures var n := DStep(ops, caps, s, e);
            n.done + n.pending ==
            s.done + s.pending + (if |s.pending| >= PENDING_MAX then [] else Arrived(ops, caps, s, e))
  {
    if e.Byte? {
      var d := Arrived(ops, caps, s, e);
      assert s.done + (s.pending + d) == s.done + s.pending + d;
    }
  }

  /** Conservation: every arrival is run once, waits once, or was dropped once. */
  lemma {:induction false} NothingLostTwice(ops: OpTable, caps: Caps, s: State, es: seq<Event>)
    ensures var e := DRun(ops, caps, s, es);
            multiset(e.done + e.pending) + multiset(Dropped(ops, caps, s, es)) ==
            multiset(s.done + s.pending) + multiset(Arrivals(ops, caps, s, es))
    decreases |es|
  {
    if es != [] {
      var next, full := DStep(ops, caps, s, es[0]), |s.pending| >= PENDING_MAX;
      NothingLostTwice(ops, caps, next, es[1..]);
      StepQueue(ops, caps, s, es[0]);
      var d := Arrived(ops, caps, s, es[0]);
      var arrivals, dropped := Arrivals(ops, caps, next, es[1..]), Dropped(ops, caps, next, es[1..]);
      var kept, lost := if full then [] else d, if full then d else [];
      var e := DRun(ops, caps, s, es);
      Balance(multiset(e.done + e.pending), multiset(s.done + s.pending), multiset(kept), multiset(lost),
              multiset(d), multiset(arrivals), multiset(dropped));
      assert multiset(lost + dropped) == multiset(lost) + multiset(dropped);
      assert multiset(d + arrivals) == multiset(d) + multiset(arrivals);
    }
  }

  lemma {:induction false} Balance<T>(end: multiset<T>, start: multiset<T>, kept: multiset<T>, lost: multiset<T>,
                   first: multiset<T>, arrivals: multiset<T>, dropped: multiset<T>)
    requires kept + lost == first && end + dropped == start + kept + arrivals
    ensures end + (lost + dropped) == start + (first + arrivals)
  {
    assert end + (lost + dropped) == end + dropped + lost;
  }

  /** Order: without drops, the actions run so far followed by the waiting packets are the
      arrivals, in order. */
  lemma {:induction false} ArrivalOrder(ops: OpTable, caps: Caps, s: State, es: seq<Event>)
    requires Dropped(ops, caps, s, es) == []
    ensures var e := DRun(ops, caps, s, es);
            e.done + e.pending == s.done + s.pending + Arrivals(ops, caps, s, es)
    decreases |es|
  {
    if es != [] {
      var next := DStep(ops, caps, s, es[0]);
      ArrivalOrder(ops, caps, next, es[1..]);
      StepQueue(ops, caps, s, es[0]);
      ConcatAssoc(s.done + s.pending, Arrived(ops, caps, s, es[0]), Arrivals(ops, caps, next, es[1..]));
    }
  }

  /** a is b with some elements left out. */
  ghost predicate Subsequence(a: seq<Packet>, b: seq<Packet>) {
    if a == [] then true
    else
      b != [] &&
      ((a[|a| - 1] == b[|b| - 1] && Subsequence(a[..|a| - 1], b[..|b| - 1])) || Subsequence(a, b[..|b| - 1]))
  }

  lemma {:induction false} SubsequenceSnoc(a: seq<Packet>, b: seq<Packet>, p: Packet)
    requires Subsequence(a, b)
    ensures Subsequence(a + [p], b + [p]) && Subsequence(a, b + [p])
  {
    var a', b' := a + [p], b + [p];
    assert a'[..|a'| - 1] == a && b'[..|b'| - 1] == b;
  }

  /** Order in general: even with drops, nothing overtakes. */
  lemma {:induction false} NothingOvertakes(ops: OpTable, caps: Caps, s: State, es: seq<Event>, before: seq<Packet>)
    requires Subsequence(s.done + s.pending, before)
    ensures var e := DRun(ops, caps, s, es);
            Subsequence(e.done + e.pending, before + Arrivals(ops, caps, s, es))
    decreases |es|
  {
    if es == [] {
      assert before + [] == before;
    } else {
      var next, d := DStep(ops, caps, s, es[0]), Arrived(ops, caps, s, es[0]);
      StepQueue(ops, caps, s, es[0]);
      KeepsSubsequence(s.done + s.pending, before, d);
      NothingOvertakes(ops, caps, next, es[1..], before + d);
      ConcatAssoc(before, d, Arrivals(ops, caps, next, es[1..]));
    }
  }

  lemma {:induction false} KeepsSubsequence(a: seq<Packet>, b: seq<Packet>, d: seq<Packet>)
    requires Subsequence(a, b) && |d| <= 1
    ensures Subsequence(a + d, b + d) && Subsequence(a + [], b + d)
  {
    assert a + [] == a;
    if d == [] {
      assert a + d == a && b + d == b;
    } else {
      assert d == [d[0]];
      SubsequenceSnoc(a, b, d[0]);
    }
  }

  // ---------------------------------------------------------------- when is nothing dropped

  /** Caps of the types 0..n-1 together. */
  function CapSum(caps: Caps, n: nat): nat {
    if n == 0 then 0
    else CapSum(caps, n - 1) + (if n <= 20 && (n - 1) as uint8 in caps then caps[(n - 1) as uint8] else 0)
  }

  function CountSum(ps: seq<Packet>, n: nat): nat {
    if n == 0 then 0 else CountSum(ps, n - 1) + (if n <= 20 then Count(ps, (n - 1) as uint8) else 0)
  }

  /** The invariant of a run: buffers are never overcommitted, not even by a frame in flight. */
  ghost predicate Good(ops: OpTable, caps: Caps, s: State) {
    && Sound(ops, s.rx)
    && AllMatch(ops, s.pending)
    && |s.pending| <= PENDING_MAX
    && (forall t | t in caps :: Count(s.pending, t) <= caps[t])
    && (s.rx.InPayload? || s.rx.SeekChecksum? ==>
        s.rx.typ in caps && Count(s.pending, s.rx.typ) < caps[s.rx.typ])
  }

  lemma {:induction false} CountSnoc(ps: seq<Packet>, p: Packet, t: uint8)
    ensures Count(ps + [p], t) == Count(ps, t) + Hit(p, t)
  {
    assert (ps + [p])[..|ps|] == ps;
  }

  lemma {:induction false} StepGood(ops: OpTable, caps: Caps, s: State, e: Event)
    requires FixedSizes(ops) && ops.Keys == caps.Keys && Good(ops, caps, s)
    ensures Good(ops, caps, DStep(ops, caps, s, e))
  {
    hide Xor2;
    if e.Byte? {
      var i := InputOf(caps, s, e.c);
      StepSound(ops, s.rx, i);
      if s.rx.SeekChecksum? {
        ArrivalGood(ops, caps, s, i);
      } else {
        assert s.pending + [] == s.pending;
        FlightGood(ops, caps, s, i);
      }
    } else {
      assert forall t | t in caps :: Count([], t) == 0;
    }
  }

  /** A frame that gets past its size byte has a buffer. */
  lemma {:induction false} FlightGood(ops: OpTable, caps: Caps, s: State, i: Input)
    requires ops.Keys == caps.Keys && Good(ops, caps, s) && !s.rx.SeekChecksum?
    requires i.room == Room(caps, s)
    ensures var rx := Step(ops, s.rx, i).0;
            rx.InPayload? || rx.SeekChecksum? ==> rx.typ in caps && Count(s.pending, rx.typ) < caps[rx.typ]
  {
  }

  lemma {:induction false} ArrivalGood(ops: OpTable, caps: Caps, s: State, i: Input)
    requires FixedSizes(ops) && ops.Keys == caps.Keys && Good(ops, caps, s) && s.rx.SeekChecksum?
    ensures var ps := if |s.pending| < PENDING_MAX then s.pending + Delivered(ops, s.rx, i) else s.pending;
            Good(ops, caps, State(SeekAA, ps, s.done))
  {
    StepSound(ops, s.rx, i);
    var d := Delivered(ops, s.rx, i);
    if d == [] {
      assert s.pending + d == s.pending;
    } else {
      forall t | t in caps ensures Count(s.pending + d, t) <= caps[t] { CountSnoc(s.pending, s.rx.buf, t); }
    }
  }

  lemma {:induction false} RunGood(ops: OpTable, caps: Caps, s: State, es: seq<Event>)
    requires FixedSizes(ops) && ops.Keys == caps.Keys && Good(ops, caps, s)
    ensures Good(ops, caps, DRun(ops, caps, s, es))
    decreases |es|
  {
    if es != [] {
      StepGood(ops, caps, s, es[0]);
      RunGood(ops, caps, DStep(ops, caps, s, es[0]), es[1..]);
    }
  }

  lemma {:induction false} CountSumSnoc(ps: seq<Packet>, p: Packet, n: nat)
    requires p != [] && n <= 20
    ensures CountSum(ps + [p], n) == CountSum(ps, n) + (if p[0] as int < n then 1 else 0)
  {
    if n > 0 {
      CountSumSnoc(ps, p, n - 1);
      CountSnoc(ps, p, (n - 1) as uint8);
    }
  }

  lemma {:induction false} CountSumEmpty(n: nat)
    ensures CountSum([], n) == 0
  {
    if n > 0 { CountSumEmpty(n - 1); }
  }

  /** Counting by type counts everything. */
  lemma {:induction false} CountSumIsLength(ops: OpTable, ps: seq<Packet>)
    requires AllMatch(ops, ps)
    ensures CountSum(ps, 20) == |ps|
    decreases |ps|
  {
    if ps == [] {
      CountSumEmpty(20);
    } else {
      var n := |ps| - 1;
      CountSumIsLength(ops, ps[..n]);
      CountSumSnoc(ps[..n], ps[n], 20);
      assert ps == ps[..n] + [ps[n]];
    }
  }

  /** If the counts stay below the caps, and strictly so for type t, their sums do too. */
  lemma {:induction false} SumBelow(caps: Caps, ps: seq<Packet>, t: uint8, n: nat)
    requires n <= 20 && t in caps && Count(ps, t) < caps[t]
    requires forall u | u in caps :: Count(ps, u) <= caps[u]
    requires forall u: uint8 | u !in caps :: Count(ps, u) == 0
    ensures CountSum(ps, n) + (if (t as int) < n then 1 else 0) <= CapSum(caps, n)
  {
    if n > 0 { SumBelow(caps, ps, t, n - 1); }
  }

  lemma {:induction false} OnlyInstalled(ops: OpTable, ps: seq<Packet>, t: uint8)
    requires AllMatch(ops, ps) && t !in ops
    ensures Count(ps, t) == 0
    decreases |ps|
  {
    if ps != [] {
      var n := |ps| - 1;
      assert AllMatch(ops, ps[..n]);
      OnlyInstalled(ops, ps[..n], t);
      assert ps[n][0] in ops;
    }
  }

  /** With at most eight buffers in all, a frame that completes always finds room in the list. */
  lemma {:induction false} RoomForAll(ops: OpTable, caps: Caps, s: State)
    requires FixedSizes(ops) && ops.Keys == caps.Keys && Good(ops, caps, s)
    requires CapSum(caps, 20) <= PENDING_MAX && s.rx.SeekChecksum?
    ensures |s.pending| < PENDING_MAX
  {
    CountSumIsLength(ops, s.pending);
    forall u: uint8 | u !in caps ensures Count(s.pending, u) == 0 { OnlyInstalled(ops, s.pending, u); }
    SumBelow(caps, s.pending, s.rx.typ, 20);
  }

  lemma {:induction false} NeverDropped(ops: OpTable, caps: Caps, s: State, es: seq<Event>)
    requires FixedSizes(ops) && ops.Keys == caps.Keys && Good(ops, caps, s)
    requires CapSum(caps, 20) <= PENDING_MAX
    ensures Dropped(ops, caps, s, es) == []
    decreases |es|
  {
    if es != [] {
      StepGood(ops, caps, s, es[0]);
      NeverDropped(ops, caps, DStep(ops, caps, s, es[0]), es[1..]);
      if s.rx.SeekChecksum? { RoomForAll(ops, caps, s); }
    }
  }

  /** Deferred delivery is exactly once and first in first out: with at most eight buffers in all,
      for every interleaving of bytes and processing, the actions run so far followed by the waiting
      packets are exactly what a batch parser finds in the stream. */
  lemma {:induction false} ExactlyOnceInOrder(ops: OpTable, caps: Caps, es: seq<Event>)
    requires FixedSizes(ops) && ops.Keys == caps.Keys && CapSum(caps, 20) <= PENDING_MAX
    ensures var e := DRun(ops, caps, Fresh, es);
            e.done + e.pending == Parse(ops, Inputs(ops, caps, Fresh, es))
  {
    NeverDropped(ops, caps, Fresh, es);
    ArrivalOrder(ops, caps, Fresh, es);
    ReceiverProjection(ops, caps, Fresh, es);
    RunIsParse(ops, Inputs(ops, caps, Fresh, es));
  }

  // ---------------------------------------------------------------- and when something can be

  lemma {:induction false} DRunConcat(ops: OpTable, caps: Caps, s: State, a: seq<Event>, b: seq<Event>)
    ensures DRun(ops, caps, s, a + b) == DRun(ops, caps, DRun(ops, caps, s, a), b)
    ensures |Dropped(ops, caps, s, a + b)| >= |Dropped(ops, caps, DRun(ops, caps, s, a), b)|
    decreases |a|
  {
    if a == [] {
      assert a + b == b;
    } else {
      DRunConcat(ops, caps, DStep(ops, caps, s, a[0]), a[1..], b);
      assert (a + b)[1..] == a[1..] + b;
    }
  }

  lemma {:induction false} ArrivalsConcat(ops: OpTable, caps: Caps, s: State, a: seq<Event>, b: seq<Event>)
    ensures Arrivals(ops, caps, s, a + b) == Arrivals(ops, caps, s, a) + Arrivals(ops, caps, DRun(ops, caps, s, a), b)
    decreases |a|
  {
    hide DStep;
    hide Arrived;
    if a == [] {
      assert a + b == b;
    } else {
      var next := DStep(ops, caps, s, a[0]);
      assert (a + b)[1..] == a[1..] + b;
      ArrivalsConcat(ops, caps, next, a[1..], b);
      ConcatAssoc(Arrived(ops, caps, s, a[0]), Arrivals(ops, caps, next, a[1..]),
                  Arrivals(ops, caps, DRun(ops, caps, next, a[1..]), b));
    }
  }

  ghost predicate OnlyBytes(es: seq<Event>) {
    forall i | 0 <= i < |es| :: es[i].Byte?
  }

  lemma {:induction false} BytesKeepDone(ops: OpTable, caps: Caps, s: State, es: seq<Event>)
    requires OnlyBytes(es)
    ensures DRun(ops, caps, s, es).done == s.done
    decreases |es|
  {
    if es != [] { BytesKeepDone(ops, caps, DStep(ops, caps, s, es[0]), es[1..]); }
  }

  /** Bytes alone: arrivals queue up as long as they fit. */
  lemma {:induction false} BytesQueue(ops: OpTable, caps: Caps, s: State, es: seq<Event>)
    requires OnlyBytes(es) && |s.pending| + |Arrivals(ops, caps, s, es)| <= PENDING_MAX
    ensures DRun(ops, caps, s, es).pending == s.pending + Arrivals(ops, caps, s, es)
    decreases |es|
  {
    if es == [] {
      assert s.pending + [] == s.pending;
    } else {
      var next, d := DStep(ops, caps, s, es[0]), Arrived(ops, caps, s, es[0]);
      if |s.pending| == PENDING_MAX { assert d == [] && next.pending == s.pending + d; }
      BytesQueue(ops, caps, next, es[1..]);
      ConcatAssoc(s.pending, d, Arrivals(ops, caps, next, es[1..]));
    }
  }

  /** Bytes alone on a full list: every arrival is dropped. */
  lemma {:induction false} BytesDrop(ops: OpTable, caps: Caps, s: State, es: seq<Event>)
    requires OnlyBytes(es) && |s.pending| >= PENDING_MAX
    ensures Dropped(ops, caps, s, es) == Arrivals(ops, caps, s, es)
    decreases |es|
  {
    if es != [] { BytesDrop(ops, caps, DStep(ops, caps, s, es[0]), es[1..]); }
  }

  function BytesOf(b: seq<uint8>): (es: seq<Event>)
    ensures |es| == |b| && forall i | 0 <= i < |b| :: es[i] == Byte(b[i])
  {
    seq(|b|, i requires 0 <= i < |b| => Byte(b[i]))
  }

  lemma {:induction false} InputsOfBytes(ops: OpTable, caps: Caps, s: State, es: seq<Event>)
    requires OnlyBytes(es)
    ensures |Inputs(ops, caps, s, es)| == |es|
    ensures forall i | 0 <= i < |es| :: Inputs(ops, caps, s, es)[i].c == es[i].c
    decreases |es|
  {
    if es != [] { InputsOfBytes(ops, caps, DStep(ops, caps, s, es[0]), es[1..]); }
  }

  /** The frame of a packet whose type has a free buffer arrives. */
  lemma {:induction false} FrameArrives(ops: OpTable, caps: Caps, s: State, p: Packet)
    requires Matches(ops, p) && p[0] < TYPE_MAX && s.rx == SeekAA
    requires p[0] in caps && Count(s.pending, p[0]) < caps[p[0]]
    ensures Arrivals(ops, caps, s, BytesOf(Frame(p))) == [p]
    ensures DRun(ops, caps, s, BytesOf(Frame(p))).rx == SeekAA
  {
    hide Xor2;
    var es := BytesOf(Frame(p));
    var ins := Inputs(ops, caps, s, es);
    InputsOfBytes(ops, caps, s, es);
    assert Bytes(ins) == Frame(p);
    RoomAtSize(ops, caps, s, es, p[0], p[1]);
    ReceiverProjection(ops, caps, s, es);
    FrameDelivered(ops, p, ins);
  }

  lemma {:induction false} RoomAtSize(ops: OpTable, caps: Caps, s: State, es: seq<Event>, t: uint8, size: uint8)
    requires s.rx == SeekAA && t in ops && t < TYPE_MAX && t in caps && Count(s.pending, t) < caps[t]
    requires |es| > 3 && es[0] == Byte(0xAA) && es[1] == Byte(0x55) && es[2] == Byte(t) && es[3] == Byte(size)
    ensures |Inputs(ops, caps, s, es)| > 3 && Inputs(ops, caps, s, es)[3].room
  {
    var s1 := DStep(ops, caps, s, es[0]);
    var s2 := DStep(ops, caps, s1, es[1]);
    var s3 := DStep(ops, caps, s2, es[2]);
    assert s3 == State(SeekSize(t, ops[t], t), s.pending, s.done) by {
      assert s.pending + [] == s.pending;
    }
    assert es[1..][0] == es[1] && es[1..][1..] == es[2..];
    assert es[2..][0] == es[2] && es[2..][1..] == es[3..];
    assert Inputs(ops, caps, s3, es[3..])[0] == InputOf(caps, s3, size);
    assert Inputs(ops, caps, s2, es[2..])[1] == Inputs(ops, caps, s3, es[3..])[0];
    assert Inputs(ops, caps, s1, es[1..])[2] == Inputs(ops, caps, s2, es[2..])[1];
  }

  /** If all caps are reached, the waiting packets number at least the sum of the caps. */
  lemma {:induction false} AllFull(caps: Caps, ps: seq<Packet>, n: nat)
    requires n <= 20 && forall t | t in caps :: Count(ps, t) >= caps[t]
    ensures CountSum(ps, n) >= CapSum(caps, n)
  {
    if n > 0 { AllFull(caps, ps, n - 1); }
  }

  /** Some packet of type t with the installed size. */
  function Blank(t: uint8, size: uint8): (p: Packet)
    requires size >= 4
    ensures |p| == size as int && p[0] == t && p[1] == size
  {
    [t, size] + seq(size as int - 2, _ => 0)
  }

  /** An idle handler with more buffers than waiting packets can be sent one more frame. */
  lemma {:induction false} NextFrame(ops: OpTable, caps: Caps, s: State) returns (p: Packet)
    requires FixedSizes(ops) && ops.Keys == caps.Keys && Good(ops, caps, s)
    requires |s.pending| < CapSum(caps, 20)
    ensures Matches(ops, p) && p[0] < TYPE_MAX && p[0] in caps && Count(s.pending, p[0]) < caps[p[0]]
  {
    CountSumIsLength(ops, s.pending);
    if forall t | t in caps :: Count(s.pending, t) >= caps[t] { AllFull(caps, s.pending, 20); }
    var t :| t in caps && Count(s.pending, t) < caps[t];
    p := Blank(t, ops[t]);
  }

  lemma {:induction false} FillAndDrop(ops: OpTable, caps: Caps, s: State) returns (es: seq<Event>)
    requires FixedSizes(ops) && ops.Keys == caps.Keys && Good(ops, caps, s) && s.rx == SeekAA
    requires CapSum(caps, 20) > PENDING_MAX
    ensures Dropped(ops, caps, s, es) != []
    decreases PENDING_MAX - |s.pending|
  {
    var p := NextFrame(ops, caps, s);
    var frame := BytesOf(Frame(p));
    FrameArrives(ops, caps, s, p);
    if |s.pending| == PENDING_MAX {
      BytesDrop(ops, caps, s, frame);
      es := frame;
    } else {
      BytesQueue(ops, caps, s, frame);
      RunGood(ops, caps, s, frame);
      var more := FillAndDrop(ops, caps, DRun(ops, caps, s, frame));
      DRunConcat(ops, caps, s, frame, more);
      es := frame + more;
    }
  }

  /** No run ever drops a checksum-valid packet if and only if there are at most eight buffers. */
  lemma {:induction false} LosslessIff(ops: OpTable, caps: Caps)
    requires FixedSizes(ops) && ops.Keys == caps.Keys
    ensures (forall es :: Dropped(ops, caps, Fresh, es) == []) <==> CapSum(caps, 20) <= PENDING_MAX
  {
    if CapSum(caps, 20) <= PENDING_MAX {
      forall es ensures Dropped(ops, caps, Fresh, es) == [] { NeverDropped(ops, caps, Fresh, es); }
    } else {
      var es := FillAndDrop(ops, caps, Fresh);
      assert Dropped(ops, caps, Fresh, es) != [];
    }
  }
}
