/** What the framing promises end to end: round trip, corruption detection,
    refused frames, and a bound on resynchronisation. */
module Delivery {
  import opened Words
  import opened Packets
  import opened Receiver

  /** Every packet is one the receiver expects. */
  ghost predicate AllMatch(ops: OpTable, ps: seq<Packet>) {
    forall i | 0 <= i < |ps| :: Matches(ops, ps[i]) && ps[i][0] < TYPE_MAX
  }

  predicate NoSync(b: seq<uint8>) {
    forall i | 0 <= i < |b| :: b[i] != 0xAA
  }

  /** Past its size byte, the frame of p never shows the first sync byte. */
  predicate Quiet(p: Packet) {
    |p| >= 2 && NoSync(p[2..]) && Xor(p) != 0xAA
  }

  // ---------------------------------------------------------------- one frame

  lemma {:induction false} FrameShape(p: Packet)
    requires |p| >= 4
    ensures |Frame(p)| == |p| + 3
    ensures Frame(p)[..2] == [0xAA, 0x55] && Frame(p)[2..|p| + 2] == p
    ensures Frame(p)[2] == p[0] && Frame(p)[3] == p[1] && Frame(p)[4..|p| + 2] == p[2..]
    ensures Frame(p)[|p| + 2] == Xor(p)
  {
  }

  lemma {:induction false} BytesSlice(s: seq<Input>, a: nat, b: nat)
    requires a <= b <= |s|
    ensures Bytes(s[a..b]) == Bytes(s)[a..b]
  {
  }

  /** A matching packet is its type, its size, and as many bytes as the receiver will read. */
  lemma {:induction false} PacketShape(ops: OpTable, p: Packet)
    requires Matches(ops, p)
    ensures [p[0], p[1]] + p[2..] == p && |p[2..]| == PayloadLength(p[1])
    ensures Frame(p) == [0xAA, 0x55, p[0], p[1]] + p[2..] + [Xor(p)]
  {
    hide Xor2;
    assert Frame(p) == [0xAA, 0x55] + ([p[0], p[1]] + p[2..]) + [Xor(p)];
  }

  /** The frame of an expected packet, met by an idle receiver with a free buffer, is delivered. */
  lemma {:induction false} FrameDelivered(ops: OpTable, p: Packet, s: seq<Input>)
    requires Matches(ops, p) && p[0] < TYPE_MAX
    requires Bytes(s) == Frame(p) && s[3].room
    ensures Run(ops, SeekAA, s) == Result(SeekAA, [p])
  {
    hide Xor2;
    PacketShape(ops, p);
    RunCandidate(ops, s, p[0], p[1], p[2..], Xor(p));
  }

  /** Replacing one byte of the sequence number, the body or the checksum is always noticed:
      nothing is delivered, the last byte answers ChecksumError, and the receiver is idle again. */
  lemma {:induction false} CorruptionDetected(ops: OpTable, p: Packet, s: seq<Input>, i: nat, b: uint8)
    requires Matches(ops, p) && p[0] < TYPE_MAX
    requires 4 <= i < |p| + 3 && b != Frame(p)[i]
    requires Bytes(s) == Frame(p)[i := b] && s[3].room
    ensures Run(ops, SeekAA, s) == Result(SeekAA, [])
    ensures Step(ops, Run(ops, SeekAA, s[..|s| - 1]).rx, s[|s| - 1]).1 == ChecksumError
  {
    hide Xor2;
    PacketShape(ops, p);
    var body := if i == |p| + 2 then p[2..] else p[2..][i - 4 := b];
    var sum := if i == |p| + 2 then b else Xor(p);
    CorruptedShape(p, i, b, body, sum);
    RunCandidate(ops, s, p[0], p[1], body, sum);
  }

  lemma {:induction false} CorruptedShape(p: Packet, i: nat, b: uint8, body: seq<uint8>, sum: uint8)
    requires |p| >= 4 && 4 <= i < |p| + 3 && b != Frame(p)[i]
    requires body == if i == |p| + 2 then p[2..] else p[2..][i - 4 := b]
    requires sum == if i == |p| + 2 then b else Xor(p)
    ensures Frame(p)[i := b] == [0xAA, 0x55, p[0], p[1]] + body + [sum]
    ensures sum != Xor([p[0], p[1]] + body)
  {
    hide Xor2;
    FrameShape(p);
    var q := [p[0], p[1]] + body;
    if i == |p| + 2 {
      assert q == p;
    } else {
      assert q == p[i - 2 := b];
      XorUpdate(p, i - 2, b);
    }
    assert Frame(p)[i := b] == [0xAA, 0x55] + q + [sum];
  }

  // ---------------------------------------------------------------- refused frames

  /** An idle receiver sleeps through bytes without the sync byte. */
  lemma {:induction false} Asleep(ops: OpTable, s: seq<Input>)
    requires NoSync(Bytes(s))
    ensures Run(ops, SeekAA, s) == Result(SeekAA, [])
    decreases |s|
  {
    if s != [] {
      assert Bytes(s)[0] == s[0].c;
      RunStep(ops, SeekAA, s);
      BytesSlice(s, 1, |s|);
      Asleep(ops, s[1..]);
    }
  }

  /** When no buffer is free the receiver gives up at the size byte. */
  lemma {:induction false} RunRefused(ops: OpTable, p: Packet, s: seq<Input>)
    requires Matches(ops, p) && p[0] < TYPE_MAX
    requires Bytes(s) == Frame(p) && !s[3].room
    ensures Run(ops, SeekAA, s) == Run(ops, SeekAA, s[4..])
  {
    hide Xor2;
    FrameShape(p);
    assert s[0].c == Frame(p)[0] && s[1].c == Frame(p)[1] && s[2].c == p[0] && s[3].c == p[1];
    RunStep(ops, SeekAA, s);
    RunStep(ops, Seek55, s[1..]);
    RunStep(ops, SeekType, s[2..]);
    RunStep(ops, SeekSize(p[0], p[1], p[0]), s[3..]);
    assert s[1..][1..] == s[2..] && s[2..][1..] == s[3..] && s[3..][1..] == s[4..];
  }

  /** A quiet frame that is refused leaves no trace. */
  lemma {:induction false} RefusedQuiet(ops: OpTable, p: Packet, s: seq<Input>)
    requires Matches(ops, p) && p[0] < TYPE_MAX && Quiet(p)
    requires Bytes(s) == Frame(p) && !s[3].room
    ensures Run(ops, SeekAA, s) == Result(SeekAA, [])
  {
    hide Xor2;
    FrameShape(p);
    RunRefused(ops, p, s);
    BytesSlice(s, 4, |s|);
    assert Bytes(s)[4..] == p[2..] + [Xor(p)];
    Asleep(ops, s[4..]);
  }

  /** A refused frame that is not quiet can bring forth a packet nobody sent: the receiver scans its
      body, and takes a frame that it finds there for a real one if it gets a buffer for it. */
  lemma {:induction false} RefusedFrameForges(ops: OpTable, p: Packet, q: Packet, before: seq<uint8>, after: seq<uint8>,
                                              s: seq<Input>)
    requires Matches(ops, p) && p[0] < TYPE_MAX && Matches(ops, q) && q[0] < TYPE_MAX
    requires p[2..] == before + Frame(q) + after && NoSync(before)
    requires Bytes(s) == Frame(p) && !s[3].room && s[|before| + 7].room
    ensures |Run(ops, SeekAA, s).out| > 0 && Run(ops, SeekAA, s).out[0] == q
  {
    hide Xor2;
    var tail := s[4..];
    RunRefused(ops, p, s);
    FrameShape(p);
    BytesSlice(s, 4, |s|);
    assert Bytes(tail) == before + Frame(q) + (after + [Xor(p)]);
    ForgedInTail(ops, q, before, after + [Xor(p)], tail);
  }

  lemma {:induction false} ForgedInTail(ops: OpTable, q: Packet, before: seq<uint8>, after: seq<uint8>, s: seq<Input>)
    requires Matches(ops, q) && q[0] < TYPE_MAX && NoSync(before)
    requires Bytes(s) == before + Frame(q) + after && s[|before| + 3].room
    ensures |Run(ops, SeekAA, s).out| > 0 && Run(ops, SeekAA, s).out[0] == q
  {
    hide Xor2;
    var x, y, z := SplitThree(s, before, Frame(q), after);
    Asleep(ops, x);
    assert y[3] == s[|x| + 3];
    FrameDelivered(ops, q, y);
    RunThree(ops, x, y, z);
  }

  lemma {:induction false} SplitThree(s: seq<Input>, a: seq<uint8>, b: seq<uint8>, c: seq<uint8>)
    returns (x: seq<Input>, y: seq<Input>, z: seq<Input>)
    requires Bytes(s) == a + b + c
    ensures s == x + y + z && Bytes(x) == a && Bytes(y) == b && Bytes(z) == c
  {
    var m, n := |a|, |a| + |b|;
    x, y, z := s[0..m], s[m..n], s[n..|s|];
    SliceThree(a, b, c);
    CutThree(s, m, n);
    BytesSlice(s, 0, m);
    BytesSlice(s, m, n);
    BytesSlice(s, n, |s|);
  }

  lemma {:induction false} CutThree<T>(s: seq<T>, m: nat, n: nat)
    requires m <= n <= |s|
    ensures s == s[0..m] + s[m..n] + s[n..|s|]
  {
  }

  lemma {:induction false} SliceThree(a: seq<uint8>, b: seq<uint8>, c: seq<uint8>)
    ensures var w := a + b + c;
            w[0..|a|] == a && w[|a|..|a| + |b|] == b && w[|a| + |b|..|w|] == c
  {
    SplitPrefix(a, b, |a| + |b|);
    assert (a + b)[..|a| + |b|] == a + b && b[..|b|] == b;
    assert (a + b + c)[0..|a|] == (a + b)[0..|a|] && (a + b + c)[|a|..|a| + |b|] == (a + b)[|a|..|a| + |b|];
  }

  lemma {:induction false} RunThree(ops: OpTable, a: seq<Input>, b: seq<Input>, c: seq<Input>)
    requires Run(ops, SeekAA, a) == Result(SeekAA, []) && Run(ops, SeekAA, b).rx == SeekAA
    ensures Run(ops, SeekAA, a + b + c).out == Run(ops, SeekAA, b).out + Run(ops, SeekAA, c).out
  {
    RunConcat(ops, SeekAA, a + b, c);
    RunConcat(ops, SeekAA, a, b);
  }

  // ---------------------------------------------------------------- streams

  /** The packets that get through: those whose frame has fully arrived and was given a buffer. */
  function Kept(ps: seq<Packet>, s: seq<Input>): seq<Packet>
    decreases |ps|
  {
    if ps == [] || |s| < |Frame(ps[0])| then []
    else (if |s| > 3 && s[3].room then [ps[0]] else []) + Kept(ps[1..], s[|Frame(ps[0])|..])
  }

  /** The first frame of the stream either had a buffer or leaves no trace when refused. */
  ghost predicate Benign(ps: seq<Packet>, s: seq<Input>)
    decreases |ps|
  {
    ps == [] || |s| < 4 ||
    ((s[3].room || Quiet(ps[0])) && (|s| >= |Frame(ps[0])| ==> Benign(ps[1..], s[|Frame(ps[0])|..])))
  }

  /** The receiver has seen a proper prefix of one expected frame. */
  lemma {:induction false} PartialFrame(ops: OpTable, p: Packet, s: seq<Input>)
    requires Matches(ops, p) && p[0] < TYPE_MAX
    requires |s| < |Frame(p)| && Bytes(s) == Frame(p)[..|s|]
    requires |s| >= 4 ==> s[3].room || Quiet(p)
    ensures Run(ops, SeekAA, s).out == []
  {
    hide Xor2;
    FrameShape(p);
    if |s| >= 1 { assert s[0].c == Frame(p)[0]; RunStep(ops, SeekAA, s); }
    if |s| >= 2 { assert s[1].c == Frame(p)[1]; RunStep(ops, Seek55, s[1..]); assert s[1..][1..] == s[2..]; }
    if |s| >= 3 { assert s[2].c == p[0]; RunStep(ops, SeekType, s[2..]); assert s[2..][1..] == s[3..]; }
    if |s| >= 4 {
      assert s[3].c == p[1];
      RunStep(ops, SeekSize(p[0], p[1], p[0]), s[3..]);
      assert s[3..][1..] == s[4..];
      BytesSlice(s, 4, |s|);
      if s[3].room {
        RunCut(ops, s);
      } else {
        assert forall i | 0 <= i < |s[4..]| :: Bytes(s[4..])[i] == p[2..][i];
        Asleep(ops, s[4..]);
      }
    }
  }

  /** The bytes of a stream, divided after the first frame. */
  lemma {:induction false} StreamSplit(ps: seq<Packet>, s: seq<Input>)
    requires ps != [] && |Frame(ps[0])| <= |s| <= |Frames(ps)| && Bytes(s) == Frames(ps)[..|s|]
    ensures var n := |Frame(ps[0])|;
            && s == s[..n] + s[n..] && Bytes(s[..n]) == Frame(ps[0])
            && |s| - n <= |Frames(ps[1..])| && Bytes(s[n..]) == Frames(ps[1..])[..|s| - n]
  {
    hide Frame;
    var n := |Frame(ps[0])|;
    BytesSlice(s, 0, n);
    BytesSlice(s, n, |s|);
    assert s[0..n] == s[..n] && s[n..|s|] == s[n..];
    SplitPrefix(Frame(ps[0]), Frames(ps[1..]), |s|);
  }

  lemma {:induction false} SplitPrefix(a: seq<uint8>, b: seq<uint8>, n: nat)
    requires |a| <= n <= |a| + |b|
    ensures (a + b)[..n][0..|a|] == a && (a + b)[..n][|a|..n] == b[..n - |a|]
  {
    var c := b[..n - |a|];
    assert (a + b)[..n] == a + c;
    assert (a + c)[0..|a|] == a && (a + c)[|a|..n] == c;
  }

  /** A stream of frames, cut anywhere: exactly the packets that arrived and found a buffer come out,
      in order, provided refused frames are quiet. */
  lemma {:induction false} StreamDelivery(ops: OpTable, ps: seq<Packet>, s: seq<Input>)
    requires AllMatch(ops, ps) && Benign(ps, s)
    requires |s| <= |Frames(ps)| && Bytes(s) == Frames(ps)[..|s|]
    ensures Run(ops, SeekAA, s).out == Kept(ps, s)
    ensures |s| == |Frames(ps)| ==> Run(ops, SeekAA, s).rx == SeekAA
    decreases |ps|
  {
    hide Step;
    hide Xor;
    hide Xor2;
    if ps != [] {
      var p, n := ps[0], |Frame(ps[0])|;
      FrameShape(p);
      if |s| < n {
        assert Bytes(s) == Frame(p)[..|s|];
        PartialFrame(ops, p, s);
      } else {
        StreamSplit(ps, s);
        if s[3].room { FrameDelivered(ops, p, s[..n]); } else { RefusedQuiet(ops, p, s[..n]); }
        RunConcat(ops, SeekAA, s[..n], s[n..]);
        StreamDelivery(ops, ps[1..], s[n..]);
      }
    }
  }

  /** Number of frames that lie wholly within the first n bytes of the stream. */
  function Complete(ps: seq<Packet>, n: nat): (m: nat)
    ensures m <= |ps|
    decreases |ps|
  {
    if ps == [] || n < |Frame(ps[0])| then 0 else 1 + Complete(ps[1..], n - |Frame(ps[0])|)
  }

  lemma {:induction false} CompleteIsExact(ps: seq<Packet>, n: nat)
    ensures |Frames(ps[..Complete(ps, n)])| <= n
    ensures Complete(ps, n) < |ps| ==> n < |Frames(ps[..Complete(ps, n) + 1])|
    decreases |ps|
  {
    var m := Complete(ps, n);
    if m > 0 {
      CompleteIsExact(ps[1..], n - |Frame(ps[0])|);
      assert ps[..m][1..] == ps[1..][..m - 1];
      if m < |ps| { assert ps[..m + 1][1..] == ps[1..][..m]; }
    } else if ps != [] {
      assert ps[..1][1..] == [];
    }
  }

  lemma {:induction false} FramesPrefix(ps: seq<Packet>, m: nat)
    requires m <= |ps|
    ensures Frames(ps) == Frames(ps[..m]) + Frames(ps[m..])
  {
    hide Frame;
    hide Frames;
    hide Xor2;
    FramesConcat(ps[..m], ps[m..]);
    assert ps == ps[..m] + ps[m..];
  }

  /** With a free buffer for every frame, the receiver delivers all complete frames and nothing else. */
  lemma {:induction false} KeptAll(ps: seq<Packet>, s: seq<Input>)
    requires forall i | 0 <= i < |s| :: s[i].room
    requires forall i | 0 <= i < |ps| :: |ps[i]| >= 4
    ensures Kept(ps, s) == ps[..Complete(ps, |s|)] && Benign(ps, s)
    decreases |ps|
  {
    if ps != [] {
      FrameShape(ps[0]);
      hide Frame;
      if |s| >= |Frame(ps[0])| {
        var rest := s[|Frame(ps[0])|..];
        KeptAll(ps[1..], rest);
        assert ps[..Complete(ps, |s|)] == [ps[0]] + ps[1..][..Complete(ps[1..], |rest|)];
      }
    }
  }

  /** Round trip: a stream of frames, cut anywhere, yields the packets whose frames are complete. */
  lemma {:induction false} RoundTrip(ops: OpTable, ps: seq<Packet>, s: seq<Input>)
    requires AllMatch(ops, ps) && forall i | 0 <= i < |s| :: s[i].room
    requires |s| <= |Frames(ps)| && Bytes(s) == Frames(ps)[..|s|]
    ensures Run(ops, SeekAA, s).out == ps[..Complete(ps, |s|)]
    ensures |s| == |Frames(ps)| ==> Run(ops, SeekAA, s) == Result(SeekAA, ps)
  {
    hide Xor2;
    KeptAll(ps, s);
    StreamDelivery(ops, ps, s);
    if |s| == |Frames(ps)| {
      CompleteIsExact(ps, |s|);
      if Complete(ps, |s|) < |ps| { FramesPrefix(ps, Complete(ps, |s|) + 1); }
      assert ps[..|ps|] == ps;
    }
  }

  /** Nothing is delivered twice and nothing is made up: what is kept is drawn from what was sent. */
  lemma {:induction false} KeptIsDrawn(ps: seq<Packet>, s: seq<Input>)
    ensures multiset(Kept(ps, s)) <= multiset(ps)
    decreases |ps|
  {
    if ps != [] && |s| >= |Frame(ps[0])| {
      KeptIsDrawn(ps[1..], s[|Frame(ps[0])|..]);
      assert ps == [ps[0]] + ps[1..];
    }
  }

  // ---------------------------------------------------------------- resynchronisation

  /** Holds in every state reachable from SeekAA when all sizes are fixed. */
  ghost predicate Sound(ops: OpTable, rx: Rx) {
    match rx
    case SeekSize(t, size, sum) => t in ops && t < TYPE_MAX && size == ops[t] && sum == t
    case InPayload(t, sum, buf, left) =>
      t in ops && t < TYPE_MAX && 2 <= |buf| && 1 <= left <= SIZE_MAX - 2 && buf[0] == t && buf[1] == ops[t] &&
      |buf| + left == ops[t] as int && sum == Xor(buf)
    case SeekChecksum(t, sum, buf) =>
      t in ops && t < TYPE_MAX && 2 <= |buf| == ops[t] as int && buf[0] == t && buf[1] == ops[t] && sum == Xor(buf)
    case _ => true
  }

  lemma {:induction false} SizeStepSound(ops: OpTable, rx: Rx, i: Input)
    requires FixedSizes(ops) && Sound(ops, rx) && rx.SeekSize?
    ensures Sound(ops, Step(ops, rx, i).0)
  {
    XorSingle(rx.typ);
    XorSnoc([rx.typ], i.c);
    assert [rx.typ] + [i.c] == [rx.typ, i.c];
  }

  lemma {:induction false} PayloadStepSound(ops: OpTable, rx: Rx, i: Input)
    requires FixedSizes(ops) && Sound(ops, rx) && rx.InPayload?
    ensures Sound(ops, Step(ops, rx, i).0)
  {
    hide Xor2;
    hide Xor;
    XorSnoc(rx.buf, i.c);
  }

  /** Sound is an invariant, and a packet that is delivered is one the table expects. */
  lemma {:induction false} StepSound(ops: OpTable, rx: Rx, i: Input)
    requires FixedSizes(ops) && Sound(ops, rx)
    ensures Sound(ops, Step(ops, rx, i).0)
    ensures forall p | p in Delivered(ops, rx, i) :: Matches(ops, p) && p[0] < TYPE_MAX
  {
    hide Xor;
    hide Xor2;
    match rx
    case SeekSize(_, _, _) => SizeStepSound(ops, rx, i);
    case InPayload(t, sum, buf, left) => PayloadStepSound(ops, rx, i);
    case _ =>
  }

  lemma {:induction false} RunSound(ops: OpTable, rx: Rx, s: seq<Input>)
    requires FixedSizes(ops) && Sound(ops, rx)
    ensures Sound(ops, Run(ops, rx, s).rx)
    ensures AllMatch(ops, Run(ops, rx, s).out)
    decreases |s|
  {
    if s != [] {
      StepSound(ops, rx, s[0]);
      RunSound(ops, Step(ops, rx, s[0]).0, s[1..]);
    }
  }

  /** Upper bound on the bytes the receiver can still take before it is idle, when none is 0xAA. */
  function Rank(rx: Rx): nat {
    match rx
    case SeekAA => 0
    case SeekChecksum(_, _, _) => 1
    case InPayload(_, _, _, left) => left + 1
    case SeekSize(_, _, _) => SIZE_MAX
    case SeekType => SIZE_MAX + 1
    case Seek55 => SIZE_MAX + 2
  }

  lemma {:induction false} RankDrops(ops: OpTable, rx: Rx, i: Input)
    requires FixedSizes(ops) && Sound(ops, rx) && i.c != 0xAA
    ensures Rank(Step(ops, rx, i).0) < Rank(rx) || (rx.SeekAA? && Step(ops, rx, i).0.SeekAA?)
  {
    hide Xor2;
  }

  lemma {:induction false} Resync(ops: OpTable, rx: Rx, s: seq<Input>)
    requires FixedSizes(ops) && Sound(ops, rx)
    requires NoSync(Bytes(s)) && |s| >= Rank(rx)
    ensures Run(ops, rx, s).rx == SeekAA
    decreases |s|
  {
    if s != [] {
      assert Bytes(s)[0] == s[0].c;
      BytesSlice(s, 1, |s|);
      RankDrops(ops, rx, s[0]);
      StepSound(ops, rx, s[0]);
      Resync(ops, Step(ops, rx, s[0]).0, s[1..]);
    }
  }

  /** From any reachable state: 256 bytes without 0xAA, then a frame with a free buffer, and the
      packet of that frame is the last one delivered. */
  lemma {:induction false} ResyncThenDeliver(ops: OpTable, history: seq<Input>, noise: seq<Input>, p: Packet,
                                             s: seq<Input>)
    requires FixedSizes(ops)
    requires |noise| >= 256 && NoSync(Bytes(noise))
    requires Matches(ops, p) && p[0] < TYPE_MAX && Bytes(s) == Frame(p) && s[3].room
    ensures Run(ops, SeekAA, history + noise).rx == SeekAA
    ensures Run(ops, SeekAA, history + noise + s) ==
            Result(SeekAA, Run(ops, SeekAA, history + noise).out + [p])
  {
    RunSound(ops, SeekAA, history);
    RunConcat(ops, SeekAA, history, noise);
    Resync(ops, Run(ops, SeekAA, history).rx, noise);
    RunConcat(ops, SeekAA, history + noise, s);
    FrameDelivered(ops, p, s);
  }

  /** The bound is reached: with a packet of the largest size there are 255 bytes without 0xAA
      after which the receiver is still inside a frame. */
  lemma {:induction false} ResyncBoundIsTight(ops: OpTable, t: uint8, s: seq<Input>)
    requires t in ops && t < TYPE_MAX && ops[t] == 254
    requires |s| == 255 && forall i | 0 <= i < |s| :: s[i].room
    requires s[0].c == 0x55 && s[1].c == t && s[2].c == 254
    requires forall i | 3 <= i < |s| :: s[i].c == 0
    ensures NoSync(Bytes(s)) && Run(ops, Seek55, s).rx.SeekChecksum?
  {
    hide Xor2;
    RunStep(ops, Seek55, s);
    RunStep(ops, SeekType, s[1..]);
    RunStep(ops, SeekSize(t, 254, t), s[2..]);
    assert s[1..][1..] == s[2..] && s[2..][1..] == s[3..];
    RunPayload(ops, t, Xor2(t, 254), [t, 254], 252, s[3..]);
  }
}
