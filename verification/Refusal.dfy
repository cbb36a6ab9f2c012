/** What reaches the far end when frames are refused for lack of a buffer: as long as refused frames leave
    no trace, packets may get lost but none is forged, doubled or overtaken. */
module Refusal {
  import opened Words
  import opened Packets
  import opened Receiver
  import opened Delivery
  import opened Leaks
  import opened Deferred

  /** The sync pair AA 55 does not occur. */
  predicate NoPair(b: seq<uint8>) {
    forall i | 0 <= i < |b| - 1 :: !(b[i] == 0xAA && b[i + 1] == 0x55)
  }

  /** Past the sync bytes, the frame of p holds no sync pair. */
  predicate PairFree(p: Packet) {
    NoPair(Frame(p)[1..])
  }

  /** A frame without a sync pair leaves no trace. */
  lemma {:induction false} PairFreeIsTraceless(ops: OpTable, p: Packet)
    requires |p| >= 4 && PairFree(p)
    ensures Traceless(ops, p)
  {
    var w := Frame(p);
    forall i | 0 <= i < |w[3..]| - 1 ensures !(w[3..][i] == 0xAA && w[3..][i + 1] == 0x55) {
      assert w[3..][i] == w[1..][i + 2] && w[3..][i + 1] == w[1..][i + 3];
    }
    forall i | 0 <= i < |w[4..]| - 1 ensures !(w[4..][i] == 0xAA && w[4..][i + 1] == 0x55) {
      assert w[4..][i] == w[1..][i + 3] && w[4..][i + 1] == w[1..][i + 4];
    }
    NoPairIsClean(ops, w[3..]);
    NoPairIsClean(ops, w[4..]);
  }

  /** Every frame of the stream either had a buffer when its size byte came, or leaves no trace. */
  ghost predicate Harmless(ops: OpTable, ps: seq<Packet>, s: seq<Input>)
    decreases |ps|
  {
    ps == [] || |s| < 4 ||
    ((s[3].room || Traceless(ops, ps[0])) && (|s| >= |Frame(ps[0])| ==> Harmless(ops, ps[1..], s[|Frame(ps[0])|..])))
  }

  /** Harmless only speaks of the past: it held before more was sent and received. */
  lemma {:induction false} HarmlessBefore(ops: OpTable, ps: seq<Packet>, more: seq<Packet>, s: seq<Input>,
                                          t: seq<Input>)
    requires Harmless(ops, ps + more, s + t)
    ensures Harmless(ops, ps, s)
    decreases |ps|
  {
    if ps != [] && |s| >= 4 {
      assert (ps + more)[0] == ps[0] && (s + t)[3] == s[3];
      var n := |Frame(ps[0])|;
      if |s| >= n {
        assert (ps + more)[1..] == ps[1..] + more;
        assert (s + t)[n..] == s[n..] + t;
        HarmlessBefore(ops, ps[1..], more, s[n..], t);
      }
    }
  }

  /** A frame, or the part of it that has arrived, met by a hunting receiver: at most its own packet
      comes out, and only when the frame is complete. */
  lemma {:induction false} OneFrame(ops: OpTable, rx: Rx, p: Packet, s: seq<Input>)
    requires Matches(ops, p) && p[0] < TYPE_MAX && Hunting(rx) && Honest(ops, rx, s)
    requires 4 <= |s| <= |Frame(p)| && Bytes(s) == Frame(p)[..|s|]
    requires s[3].room || Traceless(ops, p)
    requires rx == Seek55 ==> Traceless(ops, p)
    ensures Run(ops, rx, s).out == [] || (Run(ops, rx, s).out == [p] && |s| == |Frame(p)|)
    ensures |s| == |Frame(p)| ==> Hunting(Run(ops, rx, s).rx)
  {
    if rx == Seek55 {
      MissedSync(ops, p, s);
    } else if |s| == |Frame(p)| && s[3].room {
      assert Frame(p)[..|s|] == Frame(p);
      FrameDelivered(ops, p, s);
    } else if !s[3].room {
      HeaderRefused(ops, p, s);
      PartClean(ops, Frame(p)[4..], s[4..]);
    } else {
      PartNoRefusal(ops, p, s);
    }
  }

  /** A receiver that is awake already takes the sync pair for noise, and scans the rest. */
  lemma {:induction false} MissedSync(ops: OpTable, p: Packet, s: seq<Input>)
    requires Matches(ops, p) && p[0] < TYPE_MAX && Honest(ops, Seek55, s) && Traceless(ops, p)
    requires 4 <= |s| <= |Frame(p)| && Bytes(s) == Frame(p)[..|s|]
    ensures Run(ops, Seek55, s).out == []
    ensures |s| == |Frame(p)| ==> Hunting(Run(ops, Seek55, s).rx)
  {
    FrameShape(p);
    assert forall i | 0 <= i < |s| :: s[i].c == Frame(p)[i];
    ScanStep(ops, Seek55, s);
    ScanStep(ops, SeekAA, s[1..]);
    ScanStep(ops, SeekAA, s[1..][1..]);
    assert s[1..][1..][1..] == s[3..] == s[3..|s|];
    BytesSlice(s, 3, |s|);
    assert Frame(p)[..|s|][3..|s|] == Frame(p)[3..][..|s| - 3];
    PartClean(ops, Frame(p)[3..], s[3..]);
  }

  lemma {:induction false} PartNoRefusal(ops: OpTable, p: Packet, s: seq<Input>)
    requires Matches(ops, p) && p[0] < TYPE_MAX
    requires |s| < |Frame(p)| && Bytes(s) == Frame(p)[..|s|]
    requires |s| >= 4 ==> s[3].room
    ensures Run(ops, SeekAA, s).out == []
  {
    PartialFrame(ops, p, s);
  }

  // ---------------------------------------------------------------- subsequences

  lemma {:induction false} SubsequenceNil(b: seq<Packet>)
    ensures Subsequence([], b)
  {
  }

  lemma {:induction false} SubsequenceCons(a: seq<Packet>, b: seq<Packet>, p: Packet)
    requires Subsequence(a, b)
    ensures Subsequence([p] + a, [p] + b) && Subsequence(a, [p] + b)
    decreases |b|
  {
    if b != [] {
      var a', b' := [p] + a, [p] + b;
      assert b'[..|b'| - 1] == [p] + b[..|b| - 1] && b'[|b'| - 1] == b[|b| - 1];
      if a == [] {
        SubsequenceCons([], b[..|b| - 1], p);
        assert [p] + [] == [p] && a' == [p];
      } else {
        assert a'[..|a'| - 1] == [p] + a[..|a| - 1] && a'[|a'| - 1] == a[|a| - 1];
        if Subsequence(a, b[..|b| - 1]) { SubsequenceCons(a, b[..|b| - 1], p); }
        else { SubsequenceCons(a[..|a| - 1], b[..|b| - 1], p); }
      }
    } else {
      assert [p] + a == [p] && [p] + b == [p];
      assert [p][..0] == [];
    }
  }

  lemma {:induction false} SubsequenceTrans(a: seq<Packet>, b: seq<Packet>, c: seq<Packet>)
    requires Subsequence(a, b) && Subsequence(b, c)
    ensures Subsequence(a, c)
    decreases |b| + |c|
  {
    if a != [] {
      if Subsequence(b, c[..|c| - 1]) {
        SubsequenceTrans(a, b, c[..|c| - 1]);
      } else if Subsequence(a, b[..|b| - 1]) {
        SubsequenceTrans(a, b[..|b| - 1], c[..|c| - 1]);
      } else {
        SubsequenceTrans(a[..|a| - 1], b[..|b| - 1], c[..|c| - 1]);
      }
    }
  }

  /** A subsequence has no element more often than the whole. */
  lemma {:induction false} SubsequenceCounts(a: seq<Packet>, b: seq<Packet>)
    requires Subsequence(a, b)
    ensures multiset(a) <= multiset(b)
    decreases |b|
  {
    if a != [] {
      var b' := b[..|b| - 1];
      assert b == b' + [b[|b| - 1]];
      if Subsequence(a, b') {
        SubsequenceCounts(a, b');
      } else {
        SubsequenceCounts(a[..|a| - 1], b');
        assert a == a[..|a| - 1] + [a[|a| - 1]];
      }
    }
  }

  // ---------------------------------------------------------------- whole streams

  /** A receiver that took the last byte of a frame for a sync byte does not ask during the next frame. */
  lemma {:induction false} NoOfferAfterSync(ops: OpTable, p: Packet, s: seq<Input>)
    requires p != [] && p[0] < TYPE_MAX && |s| >= 4 && Honest(ops, Seek55, s)
    requires s[0].c == 0xAA && s[1].c == 0x55 && s[2].c == p[0]
    ensures !s[3].room
  {
    assert s[1..][1..] == s[2..] && s[2..][1..] == s[3..];
    assert Honest(ops, SeekAA, s[1..]);
    assert Honest(ops, SeekAA, s[2..]);
    assert Honest(ops, SeekAA, s[3..]);
  }

  /** From a hunting receiver, a stream of frames yields a subsequence of the packets framed. */
  lemma {:induction false} NothingForged(ops: OpTable, rx: Rx, ps: seq<Packet>, s: seq<Input>)
    requires AllMatch(ops, ps) && Hunting(rx) && Harmless(ops, ps, s) && Honest(ops, rx, s)
    requires |s| <= |Frames(ps)| && Bytes(s) == Frames(ps)[..|s|]
    ensures Subsequence(Run(ops, rx, s).out, ps)
    decreases |ps|
  {
    hide Step;
    hide Run;
    hide Subsequence;
    hide Honest;
    hide Traceless;
    SubsequenceNil(ps);
    if ps == [] {
      NoInput(ops, rx, s);
    } else {
      var p, n := ps[0], |Frame(ps[0])|;
      FrameShape(p);
      if |s| < n {
        assert Bytes(s) == Frame(p)[..|s|];
        HuntFrame(ops, rx, p, s);
      } else {
        var f, rest := s[..n], s[n..];
        StreamSplit(ps, s);
        HonestSplit(ops, rx, f, rest);
        HuntFrame(ops, rx, p, f);
        NothingForged(ops, Run(ops, rx, f).rx, ps[1..], rest);
        RunConcat(ops, rx, f, rest);
        JoinSubsequence(Run(ops, rx, f).out, Run(ops, Run(ops, rx, f).rx, rest).out, ps);
      }
    }
  }

  lemma {:induction false} NoInput(ops: OpTable, rx: Rx, s: seq<Input>)
    requires s == []
    ensures Run(ops, rx, s).out == []
  {
  }

  lemma {:induction false} HuntFrame(ops: OpTable, rx: Rx, p: Packet, s: seq<Input>)
    requires Matches(ops, p) && p[0] < TYPE_MAX && Hunting(rx) && Honest(ops, rx, s)
    requires |s| <= |Frame(p)| && Bytes(s) == Frame(p)[..|s|]
    requires |s| >= 4 ==> s[3].room || Traceless(ops, p)
    ensures Run(ops, rx, s).out == [] || (Run(ops, rx, s).out == [p] && |s| == |Frame(p)|)
    ensures |s| == |Frame(p)| ==> Hunting(Run(ops, rx, s).rx)
  {
    FrameShape(p);
    assert forall i | 0 <= i < |s| :: s[i].c == Frame(p)[i];
    if |s| >= 4 {
      if rx == Seek55 { NoOfferAfterSync(ops, p, s); }
      OneFrame(ops, rx, p, s);
    } else {
      StartOnly(ops, rx, s);
    }
  }

  /** Three bytes complete no frame. */
  lemma {:induction false} StartOnly(ops: OpTable, rx: Rx, s: seq<Input>)
    requires Hunting(rx) && |s| <= 3
    ensures Run(ops, rx, s).out == []
  {
    if |s| > 0 { RunStep(ops, rx, s); }
    if |s| > 1 { RunStep(ops, Step(ops, rx, s[0]).0, s[1..]); }
    if |s| > 2 { RunStep(ops, Step(ops, Step(ops, rx, s[0]).0, s[1]).0, s[1..][1..]); }
  }

  lemma {:induction false} JoinSubsequence(first: seq<Packet>, rest: seq<Packet>, ps: seq<Packet>)
    requires ps != [] && (first == [] || first == [ps[0]]) && Subsequence(rest, ps[1..])
    ensures Subsequence(first + rest, ps)
  {
    SubsequenceCons(rest, ps[1..], ps[0]);
    assert [ps[0]] + ps[1..] == ps;
    assert [] + rest == rest;
  }

  /** In the deferred handler buffers are offered on request only. */
  lemma {:induction false} InputsHonest(ops: OpTable, caps: Caps, s: State, es: seq<Event>)
    ensures Honest(ops, s.rx, Inputs(ops, caps, s, es))
    decreases |es|
  {
    hide Step;
    if es != [] {
      var next := DStep(ops, caps, s, es[0]);
      InputsHonest(ops, caps, next, es[1..]);
      if es[0].Byte? {
        var rest := Inputs(ops, caps, next, es[1..]);
        assert ([InputOf(caps, s, es[0].c)] + rest)[1..] == rest;
      }
    }
  }

  // ---------------------------------------------------------------- exact delivery

  /** A refused frame of p leaves no trace, and the receiver idle: its bytes after the size are not leaky, and the
      last one does not wake it up. */
  predicate Contained(ops: OpTable, p: Packet) {
    |p| >= 4 && !Leaky(ops, Frame(p)[4..]) && Xor(p) != 0xAA
  }

  lemma {:induction false} QuietIsContained(ops: OpTable, p: Packet)
    requires |p| >= 4 && Quiet(p)
    ensures Contained(ops, p)
  {
    FrameShape(p);
    var w := Frame(p)[4..];
    forall i | 0 <= i < |w| - 1 ensures !(w[i] == 0xAA && w[i + 1] == 0x55) { assert w[i] == p[2..][i]; }
    NoPairIsClean(ops, w);
  }

  /** Only a byte 0xAA wakes a receiver up. */
  lemma {:induction false} WokenByAA(ops: OpTable, s: seq<Input>)
    requires s != [] && Run(ops, SeekAA, s).rx == Seek55
    ensures s[|s| - 1].c == 0xAA
  {
    var n := |s| - 1;
    assert s == s[..n] + [s[n]];
    RunConcat(ops, SeekAA, s[..n], [s[n]]);
    RunLast(ops, Run(ops, SeekAA, s[..n]).rx, s[n]);
  }

  /** Every frame of the stream either had a buffer or is contained. */
  ghost predicate AllContained(ops: OpTable, ps: seq<Packet>, s: seq<Input>)
    decreases |ps|
  {
    ps == [] || |s| < 4 ||
    ((s[3].room || Contained(ops, ps[0])) &&
     (|s| >= |Frame(ps[0])| ==> AllContained(ops, ps[1..], s[|Frame(ps[0])|..])))
  }

  /** A frame, or the part of it that has arrived, met by an idle receiver. */
  lemma {:induction false} FrameExact(ops: OpTable, p: Packet, s: seq<Input>)
    requires Matches(ops, p) && p[0] < TYPE_MAX && Honest(ops, SeekAA, s)
    requires |s| <= |Frame(p)| && Bytes(s) == Frame(p)[..|s|] && (|s| >= 4 ==> s[3].room || Contained(ops, p))
    ensures |s| < |Frame(p)| ==> Run(ops, SeekAA, s).out == []
    ensures |s| == |Frame(p)| ==> |s| > 3 && Run(ops, SeekAA, s) == Result(SeekAA, if s[3].room then [p] else [])
  {
    FrameShape(p);
    if |s| < 4 || s[3].room {
      if |s| == |Frame(p)| {
        assert Frame(p)[..|s|] == Frame(p);
        FrameDelivered(ops, p, s);
      } else {
        PartNoRefusal(ops, p, s);
      }
    } else {
      HeaderRefused(ops, p, s);
      PartClean(ops, Frame(p)[4..], s[4..]);
      if |s| == |Frame(p)| { StaysAsleep(ops, p, s); }
    }
  }

  lemma {:induction false} StaysAsleep(ops: OpTable, p: Packet, s: seq<Input>)
    requires |p| >= 4 && Xor(p) != 0xAA && Bytes(s) == Frame(p)
    requires Clean(Run(ops, SeekAA, s[4..])) && |s| > 4
    ensures Run(ops, SeekAA, s[4..]) == Result(SeekAA, [])
  {
    FrameShape(p);
    assert s[|s| - 1].c == Bytes(s)[|s| - 1] == Xor(p);
    hide Xor;
    if Run(ops, SeekAA, s[4..]).rx == Seek55 { WokenByAA(ops, s[4..]); }
  }

  /** A stream of frames, cut anywhere, with refusals: exactly the packets whose frames arrived whole and found a
      buffer come out, in order, provided the refused ones are contained. */
  lemma {:induction false} ExactDelivery(ops: OpTable, ps: seq<Packet>, s: seq<Input>)
    requires AllMatch(ops, ps) && AllContained(ops, ps, s) && Honest(ops, SeekAA, s)
    requires |s| <= |Frames(ps)| && Bytes(s) == Frames(ps)[..|s|]
    ensures Run(ops, SeekAA, s).out == Kept(ps, s)
    ensures |s| == |Frames(ps)| ==> Run(ops, SeekAA, s).rx == SeekAA
    decreases |ps|
  {
    hide Step;
    hide Run;
    hide Honest;
    hide Contained;
    if ps == [] {
      NothingRun(ops, s);
    } else {
      var p, n := ps[0], |Frame(ps[0])|;
      FrameShape(p);
      if |s| < n {
        assert Bytes(s) == Frame(p)[..|s|];
        FrameExact(ops, p, s);
      } else {
        var f, rest := s[..n], s[n..];
        StreamSplit(ps, s);
        HonestSplit(ops, SeekAA, f, rest);
        assert Frame(p)[..n] == Frame(p);
        FrameExact(ops, p, f);
        hide Frame;
        ExactDelivery(ops, ps[1..], rest);
        RunConcat(ops, SeekAA, f, rest);
      }
    }
  }

  lemma {:induction false} NothingRun(ops: OpTable, s: seq<Input>)
    requires s == []
    ensures Run(ops, SeekAA, s) == Result(SeekAA, [])
  {
  }
}
