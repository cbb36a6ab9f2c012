/** What can come out of the body of a refused frame. The receiver scans it, and may be given a buffer there
    or not: which bytes are harmless whatever the buffer answers are? */
module Leaks {
  import opened Words
  import opened Packets
  import opened Receiver
  import opened Delivery

  /** A receiver that waits for a sync pair. */
  predicate Hunting(rx: Rx) {
    rx == SeekAA || rx == Seek55
  }

  /** A buffer is offered only when the receiver asks for one. */
  ghost predicate Honest(ops: OpTable, rx: Rx, s: seq<Input>)
    decreases |s|
  {
    s == [] || ((s[0].room ==> rx.SeekSize?) && Honest(ops, Step(ops, rx, s[0]).0, s[1..]))
  }

  lemma {:induction false} HonestSplit(ops: OpTable, rx: Rx, a: seq<Input>, b: seq<Input>)
    ensures Honest(ops, rx, a + b) <==> Honest(ops, rx, a) && Honest(ops, Run(ops, rx, a).rx, b)
    decreases |a|
  {
    hide Step;
    if a == [] {
      assert a + b == b;
    } else {
      HonestSplit(ops, Step(ops, rx, a[0]).0, a[1..], b);
      assert (a + b)[1..] == a[1..] + b;
    }
  }

  /** Nothing comes out of a scan, and the receiver still waits for a sync pair. */
  ghost predicate Clean(r: Result) { r.out == [] && Hunting(r.rx) }

  /** With some buffer answers, a receiver that scans these bytes delivers a packet or ends inside a frame.
      Where a header is found there are two ways on: no buffer, or a frame that is delivered, thrown away, or
      not complete. */
  predicate Leaky(ops: OpTable, w: seq<uint8>) {
    if w == [] then false
    else if w[0] != 0xAA then Leaky(ops, w[1..])
    else if |w| == 1 then false
    else if w[1] != 0x55 then Leaky(ops, w[2..])
    else if |w| == 2 then true
    else if w[2] >= TYPE_MAX || w[2] !in ops then Leaky(ops, w[3..])
    else if |w| == 3 then true
    else if ops[w[2]] != SIZE_ANY && ops[w[2]] != w[3] then Leaky(ops, w[4..])
    else
      var n := 4 + PayloadLength(w[3]);
      |w| <= n || w[n] == Xor(w[2..n]) || Leaky(ops, w[4..]) || Leaky(ops, w[n + 1..])
  }

  // ---------------------------------------------------------------- not leaky: always clean

  /** The first step of a scan. */
  lemma {:induction false} ScanStep(ops: OpTable, rx: Rx, s: seq<Input>)
    requires s != [] && !rx.SeekChecksum? && Honest(ops, rx, s)
    ensures Run(ops, rx, s) == Run(ops, Step(ops, rx, s[0]).0, s[1..]) && Honest(ops, Step(ops, rx, s[0]).0, s[1..])
    ensures Bytes(s[1..]) == Bytes(s)[1..] && Bytes(s)[0] == s[0].c && |Bytes(s)| == |s|
    ensures s[0].room ==> rx.SeekSize?
  {
    RunStep(ops, rx, s);
  }

  /** The first four bytes of a header that is found. */
  lemma {:induction false} ScanHeader(ops: OpTable, s: seq<Input>)
    requires |s| >= 4 && Honest(ops, SeekAA, s) && s[0].c == 0xAA && s[1].c == 0x55 && s[2].c < TYPE_MAX
    requires s[2].c in ops
    requires !s[3].room || (ops[s[2].c] != SIZE_ANY && ops[s[2].c] != s[3].c)
    ensures Run(ops, SeekAA, s) == Run(ops, SeekAA, s[4..]) && Honest(ops, SeekAA, s[4..])
  {
    hide Xor2;
    ScanStep(ops, SeekAA, s);
    ScanStep(ops, Seek55, s[1..]);
    ScanStep(ops, SeekType, s[1..][1..]);
    ScanStep(ops, SeekSize(s[2].c, ops[s[2].c], s[2].c), s[1..][1..][1..]);
    assert s[1..][1..][1..][1..] == s[4..];
  }

  /** A frame found in the scan that is complete and fails its checksum. */
  lemma {:induction false} ScanThrownAway(ops: OpTable, s: seq<Input>, n: nat)
    requires |s| >= 4 && s[0].c == 0xAA && s[1].c == 0x55 && s[2].c < TYPE_MAX && s[2].c in ops
    requires ops[s[2].c] == SIZE_ANY || ops[s[2].c] == s[3].c
    requires s[3].room && n == 4 + PayloadLength(s[3].c) < |s| && s[n].c != Xor(Bytes(s)[2..n])
    ensures Run(ops, SeekAA, s) == Run(ops, SeekAA, s[n + 1..])
    ensures Honest(ops, SeekAA, s) ==> Honest(ops, SeekAA, s[n + 1..])
    ensures Honest(ops, SeekAA, s[..n + 1]) && Honest(ops, SeekAA, s[n + 1..]) ==> Honest(ops, SeekAA, s)
  {
    hide Xor2;
    hide Honest;
    var f, rest := s[..n + 1], s[n + 1..];
    assert s == f + rest;
    BytesSlice(s, 2, n);
    assert f[2..n] == s[2..n];
    RunWhole(ops, f);
    RunConcat(ops, SeekAA, f, rest);
    HonestSplit(ops, SeekAA, f, rest);
    assert [] + Run(ops, SeekAA, rest).out == Run(ops, SeekAA, rest).out;
  }

  lemma {:induction false} CleanScan(ops: OpTable, s: seq<Input>)
    requires Honest(ops, SeekAA, s) && !Leaky(ops, Bytes(s))
    ensures Clean(Run(ops, SeekAA, s))
    decreases |s|
  {
    hide Xor2;
    if s == [] { return; }
    var w := Bytes(s);
    ScanStep(ops, SeekAA, s);
    if w[0] != 0xAA {
      CleanScan(ops, s[1..]);
    } else if |w| > 1 {
      ScanStep(ops, Seek55, s[1..]);
      assert s[1..][1..] == s[2..] && w[1..][1..] == w[2..];
      if w[1] != 0x55 {
        CleanScan(ops, s[2..]);
      } else {
        CleanHeader(ops, s);
      }
    }
  }

  lemma {:induction false} CleanHeader(ops: OpTable, s: seq<Input>)
    requires Honest(ops, SeekAA, s) && !Leaky(ops, Bytes(s)) && |s| >= 2 && s[0].c == 0xAA && s[1].c == 0x55
    ensures Clean(Run(ops, SeekAA, s))
    decreases |s|, 0
  {
    hide Xor2;
    var w := Bytes(s);
    assert w[2] == s[2].c;
    if w[2] >= TYPE_MAX || w[2] !in ops {
      ScanStep(ops, SeekAA, s);
      ScanStep(ops, Seek55, s[1..]);
      ScanStep(ops, SeekType, s[1..][1..]);
      assert s[1..][1..][1..] == s[3..] && w[1..][1..][1..] == w[3..];
      CleanScan(ops, s[3..]);
    } else {
      assert w[3] == s[3].c;
      var n := 4 + PayloadLength(w[3]);
      if !s[3].room || (ops[w[2]] != SIZE_ANY && ops[w[2]] != w[3]) {
        ScanHeader(ops, s);
        BytesSlice(s, 4, |s|);
        assert s[4..|s|] == s[4..] && w[4..|s|] == w[4..];
        CleanScan(ops, s[4..]);
      } else {
        ScanThrownAway(ops, s, n);
        BytesSlice(s, n + 1, |s|);
        assert s[n + 1..|s|] == s[n + 1..] && w[n + 1..|s|] == w[n + 1..];
        CleanScan(ops, s[n + 1..]);
      }
    }
  }

  // ---------------------------------------------------------------- leaky: some answers leak

  /** No buffer is ever offered. */
  function Refusing(w: seq<uint8>): (s: seq<Input>)
    ensures Bytes(s) == w && forall i | 0 <= i < |s| :: !s[i].room
  {
    seq(|w|, i requires 0 <= i < |w| => Input(w[i], false))
  }

  lemma {:induction false} RefusingHonest(ops: OpTable, rx: Rx, s: seq<Input>)
    requires forall i | 0 <= i < |s| :: !s[i].room
    ensures Honest(ops, rx, s)
    decreases |s|
  {
    hide Step;
    if s != [] { RefusingHonest(ops, Step(ops, rx, s[0]).0, s[1..]); }
  }

  /** A buffer at the fourth byte only, where the receiver asks for one. */
  function Accepting(w: seq<uint8>): (s: seq<Input>)
    ensures Bytes(s) == w && forall i | 0 <= i < |s| :: s[i].room <==> i == 3
  {
    seq(|w|, i requires 0 <= i < |w| => Input(w[i], i == 3))
  }

  lemma {:induction false} AcceptingHonest(ops: OpTable, w: seq<uint8>)
    requires |w| >= 4 && w[0] == 0xAA && w[1] == 0x55 && w[2] < TYPE_MAX && w[2] in ops
    ensures Honest(ops, SeekAA, Accepting(w))
  {
    hide Xor2;
    var s := Accepting(w);
    assert forall i | 0 <= i < |s| :: s[i].c == Bytes(s)[i];
    var rx := SeekSize(w[2], ops[w[2]], w[2]);
    RefusingHonest(ops, Step(ops, rx, s[3]).0, s[4..]);
    assert s[1..][1..] == s[2..] && s[2..][1..] == s[3..] && s[3..][1..] == s[4..];
    assert Honest(ops, rx, s[3..]);
    assert Honest(ops, SeekType, s[2..]);
    assert Honest(ops, Seek55, s[1..]);
  }

  /** Some refused bytes in front that leave the receiver idle. */
  lemma {:induction false} Prefixed(ops: OpTable, a: seq<Input>, b: seq<Input>)
    requires Honest(ops, SeekAA, a) && Run(ops, SeekAA, a) == Result(SeekAA, []) && Honest(ops, SeekAA, b)
    ensures Honest(ops, SeekAA, a + b) && Run(ops, SeekAA, a + b) == Run(ops, SeekAA, b)
    ensures Bytes(a + b) == Bytes(a) + Bytes(b)
  {
    HonestSplit(ops, SeekAA, a, b);
    RunConcat(ops, SeekAA, a, b);
    assert [] + Run(ops, SeekAA, b).out == Run(ops, SeekAA, b).out;
  }

  /** k bytes that bring an idle receiver back to idle when nothing is offered. */
  lemma {:induction false} SkippedBytes(ops: OpTable, a: seq<uint8>)
    requires a != [] && (a[0] != 0xAA ==> |a| == 1)
    requires a[0] == 0xAA ==> |a| >= 2 && (a[1] != 0x55 ==> |a| == 2)
    requires a[0] == 0xAA && a[1] == 0x55 ==> |a| >= 3 && (a[2] >= TYPE_MAX || a[2] !in ops ==> |a| == 3)
    requires a[0] == 0xAA && a[1] == 0x55 && a[2] < TYPE_MAX && a[2] in ops ==> |a| == 4
    ensures Honest(ops, SeekAA, Refusing(a)) && Run(ops, SeekAA, Refusing(a)) == Result(SeekAA, [])
  {
    hide Xor2;
    var s := Refusing(a);
    assert forall i | 0 <= i < |s| :: s[i].c == Bytes(s)[i];
    RefusingHonest(ops, SeekAA, s);
    ScanStep(ops, SeekAA, s);
    if |a| > 1 { ScanStep(ops, Seek55, s[1..]); }
    if |a| > 2 { ScanStep(ops, SeekType, s[1..][1..]); }
    if |a| > 3 { ScanStep(ops, SeekSize(a[2], ops[a[2]], a[2]), s[1..][1..][1..]); }
  }

  lemma {:induction false} SkipThenLeak(ops: OpTable, w: seq<uint8>, k: nat, rest: seq<Input>) returns (s: seq<Input>)
    requires 0 < k <= |w| && Honest(ops, SeekAA, Refusing(w[..k]))
    requires Run(ops, SeekAA, Refusing(w[..k])) == Result(SeekAA, [])
    requires Bytes(rest) == w[k..] && Honest(ops, SeekAA, rest) && !Clean(Run(ops, SeekAA, rest))
    ensures Bytes(s) == w && Honest(ops, SeekAA, s) && !Clean(Run(ops, SeekAA, s)) && !s[k - 1].room
  {
    s := Refusing(w[..k]) + rest;
    Prefixed(ops, Refusing(w[..k]), rest);
  }

  /** Leaky bytes do leak. */
  lemma {:induction false} LeakingAnswers(ops: OpTable, w: seq<uint8>) returns (s: seq<Input>)
    requires Leaky(ops, w)
    ensures Bytes(s) == w && Honest(ops, SeekAA, s) && !Clean(Run(ops, SeekAA, s))
    decreases |w|
  {
    if w[0] != 0xAA {
      SkippedBytes(ops, w[..1]);
      var rest := LeakingAnswers(ops, w[1..]);
      s := SkipThenLeak(ops, w, 1, rest);
    } else if w[1] != 0x55 {
      SkippedBytes(ops, w[..2]);
      var rest := LeakingAnswers(ops, w[2..]);
      s := SkipThenLeak(ops, w, 2, rest);
    } else if |w| == 2 || w[2] >= TYPE_MAX || w[2] !in ops || |w| == 3 {
      s := LeakBeforeSize(ops, w);
    } else {
      s := LeakAtHeader(ops, w);
    }
  }

  lemma {:induction false} LeakBeforeSize(ops: OpTable, w: seq<uint8>) returns (s: seq<Input>)
    requires Leaky(ops, w) && |w| >= 2 && w[0] == 0xAA && w[1] == 0x55
    requires |w| == 2 || w[2] >= TYPE_MAX || w[2] !in ops || |w| == 3
    ensures Bytes(s) == w && Honest(ops, SeekAA, s) && !Clean(Run(ops, SeekAA, s))
    decreases |w|, 0
  {
    if |w| > 2 && (w[2] >= TYPE_MAX || w[2] !in ops) {
      SkippedBytes(ops, w[..3]);
      var rest := LeakingAnswers(ops, w[3..]);
      s := SkipThenLeak(ops, w, 3, rest);
    } else {
      s := Refusing(w);
      assert forall i | 0 <= i < |s| :: s[i].c == Bytes(s)[i];
      RefusingHonest(ops, SeekAA, s);
      ScanStep(ops, SeekAA, s);
      ScanStep(ops, Seek55, s[1..]);
      if |w| == 3 { ScanStep(ops, SeekType, s[1..][1..]); }
    }
  }

  /** A header for which the receiver asks for a buffer. */
  ghost predicate Asks(ops: OpTable, w: seq<uint8>) {
    && |w| >= 4 && w[0] == 0xAA && w[1] == 0x55 && w[2] < TYPE_MAX && w[2] in ops
    && (ops[w[2]] == SIZE_ANY || ops[w[2]] == w[3])
  }

  lemma {:induction false} LeakAtHeader(ops: OpTable, w: seq<uint8>) returns (s: seq<Input>)
    requires Leaky(ops, w) && |w| >= 4 && w[0] == 0xAA && w[1] == 0x55 && w[2] < TYPE_MAX && w[2] in ops
    ensures Bytes(s) == w && Honest(ops, SeekAA, s) && !Clean(Run(ops, SeekAA, s))
    decreases |w|, 0
  {
    hide Xor2;
    var n := 4 + PayloadLength(w[3]);
    if Leaky(ops, w[4..]) {
      SkippedBytes(ops, w[..4]);
      var rest := LeakingAnswers(ops, w[4..]);
      s := SkipThenLeak(ops, w, 4, rest);
    } else if |w| <= n {
      s := Accepting(w);
      AcceptingHonest(ops, w);
      EndsInside(ops, s);
    } else if w[n] == Xor(w[2..n]) {
      s := Accepting(w);
      AcceptingHonest(ops, w);
      Delivers(ops, s);
    } else {
      var rest := LeakingAnswers(ops, w[n + 1..]);
      s := ThrowThenLeak(ops, w, n, rest);
    }
  }

  lemma {:induction false} EndsInside(ops: OpTable, s: seq<Input>)
    requires Asks(ops, Bytes(s)) && s[3].room && |s| <= 4 + PayloadLength(s[3].c)
    ensures !Clean(Run(ops, SeekAA, s))
  {
    assert forall i | 0 <= i < |s| :: s[i].c == Bytes(s)[i];
    var t, size := s[2].c, s[3].c;
    RunHeader(ops, s);
    if |s| < 4 + PayloadLength(size) {
      RunPayloadPart(ops, t, Xor2(t, size), [t, ops[t]], PayloadLength(size), s[4..]);
    } else {
      RunPayload(ops, t, Xor2(t, size), [t, ops[t]], PayloadLength(size), s[4..]);
    }
  }

  lemma {:induction false} Delivers(ops: OpTable, s: seq<Input>)
    requires Asks(ops, Bytes(s)) && s[3].room && 4 + PayloadLength(s[3].c) < |s|
    requires s[4 + PayloadLength(s[3].c)].c == Xor(Bytes(s)[2..4 + PayloadLength(s[3].c)])
    ensures !Clean(Run(ops, SeekAA, s))
  {
    hide Xor2;
    hide Xor;
    hide Run;
    hide Candidate;
    assert forall i | 0 <= i < |s| :: s[i].c == Bytes(s)[i];
    var n := 4 + PayloadLength(s[3].c);
    FrontFrame(ops, s, n);
    BytesSlice(s, 2, n);
    RunWholeThenRest(ops, s[..n + 1], s[n + 1..]);
  }

  lemma {:induction false} ThrowThenLeak(ops: OpTable, w: seq<uint8>, n: nat, rest: seq<Input>) returns (s: seq<Input>)
    requires Asks(ops, w) && n == 4 + PayloadLength(w[3]) < |w| && w[n] != Xor(w[2..n])
    requires Bytes(rest) == w[n + 1..] && Honest(ops, SeekAA, rest) && !Clean(Run(ops, SeekAA, rest))
    ensures Bytes(s) == w && Honest(ops, SeekAA, s) && !Clean(Run(ops, SeekAA, s))
  {
    hide Xor2;
    var f := Accepting(w[..n + 1]);
    AcceptingHonest(ops, w[..n + 1]);
    s := f + rest;
    assert Bytes(s) == w[..n + 1] + w[n + 1..] == w;
    assert forall i | 0 <= i < |s| :: s[i].c == Bytes(s)[i];
    assert s[n + 1..] == rest && s[..n + 1] == f;
    ScanThrownAway(ops, s, n);
  }

  /** Exactly the bytes that are not leaky are clean under all buffer answers. */
  lemma {:induction false} CleanIff(ops: OpTable, w: seq<uint8>)
    ensures !Leaky(ops, w) <==>
            forall s: seq<Input> | Bytes(s) == w && Honest(ops, SeekAA, s) :: Clean(Run(ops, SeekAA, s))
  {
    if Leaky(ops, w) {
      var s := LeakingAnswers(ops, w);
    } else {
      forall s: seq<Input> | Bytes(s) == w && Honest(ops, SeekAA, s) ensures Clean(Run(ops, SeekAA, s)) {
        CleanScan(ops, s);
      }
    }
  }

  /** A part of clean bytes delivers nothing either. */
  lemma {:induction false} PartClean(ops: OpTable, w: seq<uint8>, s: seq<Input>)
    requires !Leaky(ops, w) && |s| <= |w| && Bytes(s) == w[..|s|] && Honest(ops, SeekAA, s)
    ensures Run(ops, SeekAA, s).out == []
    ensures |s| == |w| ==> Clean(Run(ops, SeekAA, s))
  {
    hide Leaky;
    var t := Refusing(w[|s|..]);
    RefusingHonest(ops, Run(ops, SeekAA, s).rx, t);
    HonestSplit(ops, SeekAA, s, t);
    assert Bytes(s + t) == w[..|s|] + w[|s|..] == w;
    CleanScan(ops, s + t);
    RunConcat(ops, SeekAA, s, t);
    if |s| == |w| { assert s + t == s; }
  }

  /** Bytes without a sync pair are not leaky. */
  lemma {:induction false} NoPairIsClean(ops: OpTable, w: seq<uint8>)
    requires forall i | 0 <= i < |w| - 1 :: !(w[i] == 0xAA && w[i + 1] == 0x55)
    ensures !Leaky(ops, w)
    decreases |w|
  {
    if w != [] {
      if w[0] != 0xAA { NoPairIsClean(ops, w[1..]); } else if |w| > 1 { NoPairIsClean(ops, w[2..]); }
    }
  }

  // ---------------------------------------------------------------- refused frames

  /** The frame of p is clean when it is refused, and also when the receiver enters it awake, after a last byte
      0xAA of the frame before, and so misses its sync pair. */
  predicate Traceless(ops: OpTable, p: Packet) {
    |p| >= 4 && !Leaky(ops, Frame(p)[4..]) && !Leaky(ops, Frame(p)[3..])
  }

  /** Unless the size of p is 0xAA this is one condition: the bytes after the size are not leaky. */
  lemma {:induction false} TracelessIff(ops: OpTable, p: Packet)
    requires |p| >= 4 && p[1] != 0xAA
    ensures Traceless(ops, p) <==> !Leaky(ops, Frame(p)[4..])
  {
    FrameShape(p);
    assert Frame(p)[3..][1..] == Frame(p)[4..] && Frame(p)[3..][0] == p[1];
  }

  lemma {:induction false} HeaderRefused(ops: OpTable, p: Packet, s: seq<Input>)
    requires Matches(ops, p) && p[0] < TYPE_MAX
    requires 4 <= |s| <= |Frame(p)| && Bytes(s) == Frame(p)[..|s|] && !s[3].room
    ensures Run(ops, SeekAA, s) == Run(ops, SeekAA, s[4..])
    ensures Honest(ops, SeekAA, s) ==> Honest(ops, SeekAA, s[4..])
    ensures Bytes(s[4..]) == Frame(p)[4..][..|s| - 4]
  {
    hide Xor;
    hide Frame;
    hide Run;
    hide Honest;
    FrameShape(p);
    assert forall i | 0 <= i < |s| :: s[i].c == Frame(p)[i];
    BytesSlice(s, 4, |s|);
    assert s[4..|s|] == s[4..];
    NoBuffer(ops, s);
    if Honest(ops, SeekAA, s) { ScanHeader(ops, s); }
  }

  lemma {:induction false} NoBuffer(ops: OpTable, s: seq<Input>)
    requires |s| >= 4 && s[0].c == 0xAA && s[1].c == 0x55 && s[2].c < TYPE_MAX && s[2].c in ops && !s[3].room
    ensures Run(ops, SeekAA, s) == Run(ops, SeekAA, s[4..])
  {
    hide Xor2;
    RunStep(ops, SeekAA, s);
    RunStep(ops, Seek55, s[1..]);
    RunStep(ops, SeekType, s[2..]);
    RunStep(ops, SeekSize(s[2].c, ops[s[2].c], s[2].c), s[3..]);
    hide Run;
    assert s[1..][1..] == s[2..] && s[2..][1..] == s[3..] && s[3..][1..] == s[4..];
  }

  /** Exactly when a refused frame is harmless. An idle receiver has no buffer for it: whatever buffers it is
      offered while it scans the rest, it delivers nothing and waits for the next frame, if and only if the bytes
      after the size are not leaky. Otherwise some answers make it deliver a packet from inside the frame, or
      take the beginning of the next frame for the end of one. */
  lemma {:induction false} RefusedCleanIff(ops: OpTable, p: Packet)
    requires Matches(ops, p) && p[0] < TYPE_MAX
    ensures !Leaky(ops, Frame(p)[4..]) <==>
            forall s: seq<Input> | Bytes(s) == Frame(p) && Honest(ops, SeekAA, s) && !s[3].room ::
              Clean(Run(ops, SeekAA, s))
  {
    var w := Frame(p);
    FrameShape(p);
    if Leaky(ops, w[4..]) {
      var rest := LeakingAnswers(ops, w[4..]);
      SkippedBytes(ops, w[..4]);
      var s := SkipThenLeak(ops, w, 4, rest);
    } else {
      forall s: seq<Input> | Bytes(s) == w && Honest(ops, SeekAA, s) && !s[3].room ensures Clean(Run(ops, SeekAA, s)) {
        assert w[..|s|] == w && w[4..][..|s| - 4] == w[4..];
        HeaderRefused(ops, p, s);
        CleanScan(ops, s[4..]);
      }
    }
  }
}
