/** The transmitting half of packet_handler.c on values: whole frames enter a ring of 254 bytes,
    single bytes leave it, and the receiver at the far end gets what was accepted. */
module Transmit {
  import opened Words
  import opened Packets
  import opened Receiver
  import opened Delivery

  predicate Fits(ring: seq<uint8>, p: Packet) {
    |ring| + |p| + 3 <= SIZE_MAX
  }

  /** sendPacket: the whole frame or nothing. */
  function Push(ring: seq<uint8>, p: Packet): seq<uint8> {
    if Fits(ring, p) then ring + Frame(p) else ring
  }

  /** Several sends in a row. */
  function PushAll(ring: seq<uint8>, ps: seq<Packet>): seq<uint8>
    decreases |ps|
  {
    if ps == [] then ring else PushAll(Push(ring, ps[0]), ps[1..])
  }

  /** The sends that are not refused. */
  function Accepted(ring: seq<uint8>, ps: seq<Packet>): seq<Packet>
    decreases |ps|
  {
    if ps == [] then []
    else (if Fits(ring, ps[0]) then [ps[0]] else []) + Accepted(Push(ring, ps[0]), ps[1..])
  }

  lemma {:induction false} FramesCons(p: Packet, ps: seq<Packet>)
    ensures Frames([p] + ps) == Frame(p) + Frames(ps)
  {
    assert ([p] + ps)[1..] == ps;
  }

  /** The ring gains exactly the frames of the accepted packets. */
  lemma {:induction false} PushAllIsFrames(ring: seq<uint8>, ps: seq<Packet>)
    ensures PushAll(ring, ps) == ring + Frames(Accepted(ring, ps))
    ensures |ring| <= SIZE_MAX ==> |PushAll(ring, ps)| <= SIZE_MAX
    decreases |ps|
  {
    hide Xor2;
    hide Xor;
    if ps == [] {
      assert ring + [] == ring;
    } else {
      PushAllIsFrames(Push(ring, ps[0]), ps[1..]);
      var rest := Accepted(Push(ring, ps[0]), ps[1..]);
      if Fits(ring, ps[0]) {
        FramesCons(ps[0], rest);
        ConcatAssoc(ring, Frame(ps[0]), Frames(rest));
      } else {
        assert [] + rest == rest;
      }
    }
  }

  /** No send of a series is refused if and only if all the frames fit together. */
  lemma {:induction false} AllAcceptedIffTheyFit(ring: seq<uint8>, ps: seq<Packet>)
    requires |ring| <= SIZE_MAX
    ensures Accepted(ring, ps) == ps <==> |ring| + |Frames(ps)| <= SIZE_MAX
    ensures |Accepted(ring, ps)| <= |ps|
    decreases |ps|
  {
    hide Xor2;
    hide Xor;
    if ps != [] {
      AllAcceptedIffTheyFit(Push(ring, ps[0]), ps[1..]);
      var rest := Accepted(Push(ring, ps[0]), ps[1..]);
      if Fits(ring, ps[0]) {
        assert ps == [ps[0]] + ps[1..];
        assert ([ps[0]] + rest)[1..] == rest;
      }
    }
  }

  lemma {:induction false} PushAllConcat(ring: seq<uint8>, a: seq<Packet>, b: seq<Packet>)
    ensures PushAll(ring, a + b) == PushAll(PushAll(ring, a), b)
    ensures Accepted(ring, a + b) == Accepted(ring, a) + Accepted(PushAll(ring, a), b)
    decreases |a|
  {
    hide Fits;
    hide Frame;
    if a == [] {
      assert a + b == b;
    } else {
      PushAllConcat(Push(ring, a[0]), a[1..], b);
      assert (a + b)[1..] == a[1..] + b;
      ConcatAssoc(if Fits(ring, a[0]) then [a[0]] else [], Accepted(Push(ring, a[0]), a[1..]),
                  Accepted(PushAll(ring, a), b));
    }
  }

  // ---------------------------------------------------------------- runs

  datatype TxEvent = Send(p: Packet) | Drain

  /** What has left the ring, what is in it, and the packets whose send succeeded. */
  datatype TxState = TxState(drained: seq<uint8>, ring: seq<uint8>, accepted: seq<Packet>)

  function TxStep(s: TxState, e: TxEvent): TxState {
    match e
    case Send(p) =>
      if Fits(s.ring, p) then s.(ring := s.ring + Frame(p), accepted := s.accepted + [p]) else s
    case Drain =>
      if s.ring == [] then s else s.(drained := s.drained + [s.ring[0]], ring := s.ring[1..])
  }

  function TxRun(s: TxState, es: seq<TxEvent>): TxState
    decreases |es|
  {
    if es == [] then s else TxRun(TxStep(s, es[0]), es[1..])
  }

  predicate Conserved(s: TxState) {
    s.drained + s.ring == Frames(s.accepted) && |s.ring| <= SIZE_MAX
  }

  lemma {:induction false} StepConserves(s: TxState, e: TxEvent)
    requires Conserved(s)
    ensures Conserved(TxStep(s, e))
  {
    match e
    case Send(p) =>
      FramesSnoc(s.accepted, p);
      assert s.drained + (s.ring + Frame(p)) == s.drained + s.ring + Frame(p);
    case Drain =>
      if s.ring != [] { assert s.drained + [s.ring[0]] + s.ring[1..] == s.drained + s.ring; }
  }

  /** For every interleaving of sends and drains: drained bytes plus ring are the accepted frames. */
  lemma {:induction false} RunConserves(s: TxState, es: seq<TxEvent>)
    requires Conserved(s)
    ensures Conserved(TxRun(s, es))
    decreases |es|
  {
    if es != [] {
      StepConserves(s, es[0]);
      RunConserves(TxStep(s, es[0]), es[1..]);
    }
  }

  /** Every event that sends an expected packet. */
  ghost predicate Expected(ops: OpTable, es: seq<TxEvent>) {
    forall i | 0 <= i < |es| && es[i].Send? :: Matches(ops, es[i].p) && es[i].p[0] < TYPE_MAX
  }

  lemma {:induction false} AcceptedMatch(ops: OpTable, s: TxState, es: seq<TxEvent>)
    requires Expected(ops, es) && AllMatch(ops, s.accepted)
    ensures AllMatch(ops, TxRun(s, es).accepted)
    decreases |es|
  {
    if es != [] {
      assert Expected(ops, es[1..]);
      AcceptedMatch(ops, TxStep(s, es[0]), es[1..]);
    }
  }

  /** End to end: an idle receiver fed with the drained bytes has delivered, in order and byte for
      byte, the accepted packets whose frames are complete; all of them once the ring is empty. */
  lemma {:induction false} RingRoundTrip(ops: OpTable, es: seq<TxEvent>, s: seq<Input>)
    requires Expected(ops, es)
    requires Bytes(s) == TxRun(TxState([], [], []), es).drained
    requires forall i | 0 <= i < |s| :: s[i].room
    ensures var e := TxRun(TxState([], [], []), es);
            && Run(ops, SeekAA, s).out == e.accepted[..Complete(e.accepted, |s|)]
            && (e.ring == [] ==> Run(ops, SeekAA, s) == Result(SeekAA, e.accepted))
  {
    hide Xor2;
    hide Xor;
    var e := TxRun(TxState([], [], []), es);
    RunConserves(TxState([], [], []), es);
    AcceptedMatch(ops, TxState([], [], []), es);
    assert Frames(e.accepted)[..|s|] == e.drained;
    RoundTrip(ops, e.accepted, s);
  }
}
