/** A run of the firmware in which it handles a packet that nobody sent. */
module Forgery {
  import opened Words
  import opened Packets
  import opened Receiver
  import opened Deferred
  import opened Messages
  import opened Firmware

  /** Bytes of a header for which there is no buffer, up to its sequence number. */
  lemma {:induction false} HeaderWithoutBuffer(s: State, t: uint8)
    requires s.rx == SeekAA && t in TO_ROBOT && Count(s.pending, t) >= 2
    ensures var es := BytesOf([0xAA, 0x55, t, TO_ROBOT[t], 0, 0]);
            DRun(TO_ROBOT, ROBOT_CAPS, s, es) == s && Arrivals(TO_ROBOT, ROBOT_CAPS, s, es) == []
  {
    var es := BytesOf([0xAA, 0x55, t, TO_ROBOT[t], 0, 0]);
    var s1 := s.(rx := Seek55);
    var s2 := s.(rx := SeekType);
    var s3 := s.(rx := SeekSize(t, TO_ROBOT[t], t));
    assert s.pending + [] == s.pending;
    assert ByteStep(TO_ROBOT, ROBOT_CAPS, s, 0xAA) == s1 && ByteStep(TO_ROBOT, ROBOT_CAPS, s1, 0x55) == s2;
    assert ByteStep(TO_ROBOT, ROBOT_CAPS, s2, t) == s3 && ByteStep(TO_ROBOT, ROBOT_CAPS, s3, TO_ROBOT[t]) == s;
    assert ByteStep(TO_ROBOT, ROBOT_CAPS, s, 0) == s;
    hide ByteStep;
    OneByte(s, es, s1);
    OneByte(s1, es[1..], s2);
    OneByte(s2, es[1..][1..], s3);
    OneByte(s3, es[1..][1..][1..], s);
    OneByte(s, es[1..][1..][1..][1..], s);
    OneByte(s, es[1..][1..][1..][1..][1..], s);
  }

  /** A byte that completes no packet. */
  lemma {:induction false} OneByte(s: State, es: seq<Event>, next: State)
    requires es != [] && es[0].Byte? && !s.rx.SeekChecksum? && ByteStep(TO_ROBOT, ROBOT_CAPS, s, es[0].c) == next
    ensures DRun(TO_ROBOT, ROBOT_CAPS, s, es) == DRun(TO_ROBOT, ROBOT_CAPS, next, es[1..])
    ensures Arrivals(TO_ROBOT, ROBOT_CAPS, s, es) == Arrivals(TO_ROBOT, ROBOT_CAPS, next, es[1..])
  {
    hide Step;
    assert [] + Arrivals(TO_ROBOT, ROBOT_CAPS, next, es[1..]) == Arrivals(TO_ROBOT, ROBOT_CAPS, next, es[1..]);
  }

  /** Bytes alone take nothing from the packets waiting. */
  lemma {:induction false} PendingGrows(s: State, es: seq<Event>)
    requires OnlyBytes(es)
    ensures s.pending <= DRun(TO_ROBOT, ROBOT_CAPS, s, es).pending
    decreases |es|
  {
    hide Step;
    if es != [] { PendingGrows(DStep(TO_ROBOT, ROBOT_CAPS, s, es[0]), es[1..]); }
  }

  /** A frame for which there is a buffer joins the packets waiting. */
  lemma {:induction false} FrameWaits(s: State, p: Packet)
    requires Sendable(p) && s.rx == SeekAA && Count(s.pending, p[0]) < 2 && |s.pending| < PENDING_MAX
    ensures DRun(TO_ROBOT, ROBOT_CAPS, s, BytesOf(Frame(p))).rx == SeekAA
    ensures DRun(TO_ROBOT, ROBOT_CAPS, s, BytesOf(Frame(p))).pending == s.pending + [p]
  {
    FrameArrives(TO_ROBOT, ROBOT_CAPS, s, p);
    BytesQueue(TO_ROBOT, ROBOT_CAPS, s, BytesOf(Frame(p)));
  }

  const FILLER: Packet := Blank(DRIVE_PARAM, 38)

  /** Drive parameters whose values happen to spell the frame of q. */
  function Carrier(q: Packet): Packet { [DRIVE_PARAM, 38, 0, 0] + Frame(q) + Zeros() }

  function Zeros(): seq<uint8> { seq(19, _ => 0) }

  lemma {:induction false} CarrierFrame(q: Packet)
    ensures Frame(Carrier(q)) == [0xAA, 0x55, DRIVE_PARAM, 38, 0, 0] + Frame(q) + (Zeros() + [Xor(Carrier(q))])
  {
    hide Xor2;
    hide Xor;
    hide Zeros;
    assert Frame(Carrier(q)) == [0xAA, 0x55] + ([DRIVE_PARAM, 38, 0, 0] + Frame(q) + Zeros()) + [Xor(Carrier(q))];
  }

  /** The firmware forges. The host sends three parameter packets for the drive, within one cycle; the third finds
      both buffers of its type in use, and the drive command that its values spell waits to be handled, although
      nobody sent it. Any drive command can come about in this way. */
  lemma {:induction false} FirmwareForges(q: Packet)
    requires Sendable(q) && q[0] == DRIVE_CONTROL
    ensures var ps := [FILLER, FILLER, Carrier(q)];
            AllSendable(ps) && q !in ps && q in DRun(TO_ROBOT, ROBOT_CAPS, Fresh, BytesOf(Frames(ps))).pending
  {
    hide Frame;
    hide Xor;
    CarrierSendable(q);
    var ps := [FILLER, FILLER, Carrier(q)];
    assert Sendable(FILLER);
    var s1 := DRun(TO_ROBOT, ROBOT_CAPS, Fresh, BytesOf(Frame(FILLER)));
    var s2 := DRun(TO_ROBOT, ROBOT_CAPS, s1, BytesOf(Frame(FILLER)));
    CountSnoc([], FILLER, DRIVE_PARAM);
    CountSnoc([FILLER], FILLER, DRIVE_PARAM);
    CountSnoc([], FILLER, DRIVE_CONTROL);
    CountSnoc([FILLER], FILLER, DRIVE_CONTROL);
    assert [] + [FILLER] == [FILLER];
    FrameWaits(Fresh, FILLER);
    FrameWaits(s1, FILLER);
    CarrierForges(s2, q);
    hide DRun;
    hide Sendable;
    hide Carrier;
    ThreeFrames(FILLER, FILLER, Carrier(q));
    DRunConcat(TO_ROBOT, ROBOT_CAPS, Fresh, BytesOf(Frame(FILLER)), BytesOf(Frame(FILLER)));
    DRunConcat(TO_ROBOT, ROBOT_CAPS, Fresh, BytesOf(Frame(FILLER)) + BytesOf(Frame(FILLER)),
               BytesOf(Frame(Carrier(q))));
  }

  lemma {:induction false} CarrierSendable(q: Packet)
    requires Sendable(q) && q[0] == DRIVE_CONTROL
    ensures Sendable(Carrier(q)) && q != Carrier(q) && q != FILLER
  {
    hide Xor;
  }

  lemma {:induction false} ThreeFrames(a: Packet, b: Packet, c: Packet)
    ensures BytesOf(Frames([a, b, c])) == BytesOf(Frame(a)) + BytesOf(Frame(b)) + BytesOf(Frame(c))
  {
    hide Frame;
    assert [] + [a] == [a] && [a] + [b] == [a, b] && [a, b] + [c] == [a, b, c];
    FramesSnoc([], a);
    FramesSnoc([a], b);
    FramesSnoc([a, b], c);
    assert Frames([]) + Frame(a) == Frame(a);
  }

  lemma {:induction false} CarrierForges(s: State, q: Packet)
    requires Sendable(q) && q[0] == DRIVE_CONTROL && s.rx == SeekAA && |s.pending| == 2
    requires Count(s.pending, DRIVE_PARAM) == 2 && Count(s.pending, DRIVE_CONTROL) == 0
    ensures q in DRun(TO_ROBOT, ROBOT_CAPS, s, BytesOf(Frame(Carrier(q)))).pending
  {
    hide Frame;
    hide Carrier;
    hide Zeros;
    hide Xor;
    var head, tail := [0xAA, 0x55, DRIVE_PARAM, 38, 0, 0], Zeros() + [Xor(Carrier(q))];
    CarrierFrame(q);
    HeaderWithoutBuffer(s, DRIVE_PARAM);
    FrameWaits(s, q);
    hide DRun;
    hide Arrivals;
    hide Sendable;
    hide Count;
    EventsSplit(head, Frame(q), tail);
    DRunConcat(TO_ROBOT, ROBOT_CAPS, s, BytesOf(head) + BytesOf(Frame(q)), BytesOf(tail));
    DRunConcat(TO_ROBOT, ROBOT_CAPS, s, BytesOf(head), BytesOf(Frame(q)));
    var s1 := DRun(TO_ROBOT, ROBOT_CAPS, s, BytesOf(Frame(q)));
    PendingGrows(s1, BytesOf(tail));
    assert s1.pending[2] == q;
  }

  lemma {:induction false} EventsSplit(a: seq<uint8>, b: seq<uint8>, c: seq<uint8>)
    ensures BytesOf(a + b + c) == BytesOf(a) + BytesOf(b) + BytesOf(c)
  {
  }
}
