/** Host and robot as two machines joined by two lossless byte channels: what may the host conclude
    from a response, and from the copy of a parameter that came before it? */
module Protocol {
  import opened Words
  import opened Packets
  import opened Receiver
  import opened Delivery
  import opened Transmit
  import opened Deferred
  import opened Leaks
  import opened Refusal
  import opened Messages
  import opened Firmware
  import opened Epochs

  /** orazio_client.c: the receiver, the variables, the counter of sends with its 16-bit sequence
      number, the transmit ring; and the history of the packets the ring accepted. */
  datatype Host = Host(rx: Rx, store: Store, sends: nat, ring: seq<uint8>, sent: seq<Packet>)

  /** The whole system. `heard` is the history of bytes the robot has read, each with its buffer
      answer; `read` are the bytes the host has read. */
  datatype System = System(host: Host, toRobot: seq<uint8>, toHost: seq<uint8>,
                           robot: Robot, queue: Deferred.State, heard: seq<Input>, read: seq<uint8>)

  datatype Move =
    | HostSend(p: Packet)
    | HostFlush
    | HostRead
    | RobotCycle(bytes: nat, joints: seq<uint8>, report: Report)

  // ---------------------------------------------------------------- steps

  /** global_seq after some sends. */
  function SendSeq(sends: nat): Seq16 { sends % 0x1_0000 }

  /** _sendPacket: the sequence number is used up whatever happens. */
  function Send(h: Host, p: Packet): Host
    requires |p| >= 4
  {
    var h1 := h.(sends := h.sends + 1);
    if p[0] !in TO_ROBOT || TO_ROBOT[p[0]] != p[1] then h1
    else
      var q := WithSeq(p, SendSeq(h1.sends));
      if Fits(h1.ring, q) then h1.(ring := h1.ring + Frame(q), sent := h1.sent + [q]) else h1
  }

  /** One byte for the receiver of the host; a packet that is complete is copied into its variable. */
  function ReadByte(h: Host, c: uint8): Host {
    var i := Input(c, true);
    h.(rx := Step(TO_HOST, h.rx, i).0, store := Apply(h.store, Delivered(TO_HOST, h.rx, i)))
  }

  /** A move that can be made: a packet of an outbound type and size is sendable, a cycle reads bytes that have
      arrived, and the oracles of a cycle are as many as the packets it handles. */
  ghost predicate Allowed(s: System, m: Move) {
    match m
    case HostSend(p) => |p| >= 4 && (p[0] in TO_ROBOT && TO_ROBOT[p[0]] == p[1] ==> Sendable(p))
    case HostFlush => true
    case HostRead => s.toHost != []
    case RobotCycle(n, joints, report) =>
      && n <= |s.toRobot| && report.Valid() && ParamsOk(s.robot.params)
      && AllSendable(Listen(s, n).pending) && |joints| == |Listen(s, n).pending|
  }

  /** The deferred handler of the robot after it has read n bytes. */
  function Listen(s: System, n: nat): Deferred.State
    requires n <= |s.toRobot|
  {
    DRun(TO_ROBOT, ROBOT_CAPS, s.queue, BytesOf(s.toRobot[..n]))
  }

  function Make(s: System, m: Move): System
    requires Allowed(s, m)
  {
    match m
    case HostSend(p) => s.(host := Send(s.host, p))
    case HostFlush => s.(host := s.host.(ring := []), toRobot := s.toRobot + s.host.ring)
    case HostRead =>
      s.(host := ReadByte(s.host, s.toHost[0]), toHost := s.toHost[1..], read := s.read + [s.toHost[0]])
    case RobotCycle(n, joints, report) =>
      var q := Listen(s, n);
      var (robot, out) := Cycle(s.robot, q.pending, joints, report);
      s.(toRobot := s.toRobot[n..], toHost := s.toHost + out, robot := robot, queue := ProcessStep(q),
         heard := s.heard + Inputs(TO_ROBOT, ROBOT_CAPS, s.queue, BytesOf(s.toRobot[..n])))
  }

  // ---------------------------------------------------------------- the invariant

  /** The host's side: numbers ascend as long as they have not wrapped, and every byte accepted for
      sending is in the ring, on the line, or heard by the robot. */
  ghost predicate Outbound(s: System) {
    && AllSendable(s.host.sent) && AllMatch(TO_ROBOT, s.host.sent)
    && Frames(s.host.sent) == Bytes(s.heard) + s.toRobot + s.host.ring
    && |s.host.ring| <= SIZE_MAX
    && (s.host.sends < 0x1_0000 ==> Ascending(s.host.sent, s.host.sends))
  }

  ghost predicate Ascending(ps: seq<Packet>, top: nat) {
    && (forall i | 0 <= i < |ps| :: |ps[i]| >= 4 && SeqOf(ps[i]) <= top)
    && (forall i, j | 0 <= i < j < |ps| :: |ps[i]| >= 4 && |ps[j]| >= 4 && SeqOf(ps[i]) < SeqOf(ps[j]))
  }

  /** The robot's receiver is where the bytes heard have brought it, between cycles nothing waits, and
      what was handled came out of the receiver, in order. */
  ghost predicate Heard(s: System) {
    && s.queue.rx == Run(TO_ROBOT, SeekAA, s.heard).rx
    && Honest(TO_ROBOT, SeekAA, s.heard)
    && s.queue.pending == []
    && Subsequence(s.queue.done, Run(TO_ROBOT, SeekAA, s.heard).out)
  }

  /** The way back: every byte the robot sent is on the line or read, and the host's variables are what
      the packets read so far have made of the initial ones. */
  ghost predicate Inbound(s: System, initial: Store) {
    && Frames(s.robot.sent) == s.read + s.toHost && s.robot.ring == []
    && s.host.rx == Run(TO_HOST, SeekAA, Offered(s.read)).rx
    && s.host.store == Apply(initial, Run(TO_HOST, SeekAA, Offered(s.read)).out)
  }

  /** The host always has a buffer. */
  function Offered(b: seq<uint8>): (s: seq<Input>)
    ensures |s| == |b| && forall i | 0 <= i < |b| :: s[i] == Input(b[i], true)
  {
    seq(|b|, i requires 0 <= i < |b| => Input(b[i], true))
  }

  ghost predicate Inv(s: System, initial: Store) {
    Outbound(s) && Heard(s) && Inbound(s, initial) && RobotInv(s.robot, s.queue.done)
  }

  /** The assumptions under which the protocol works: fewer than 65536 sends, and every frame that the robot
      refused for lack of a buffer leaves no trace. Both only speak of the past. */
  ghost predicate Calm(s: System) {
    s.host.sends < 0x1_0000 && Harmless(TO_ROBOT, s.host.sent, s.heard)
  }

  // ---------------------------------------------------------------- consequences for what is handled

  /** What the robot handled is a subsequence of what the host sent. */
  lemma {:induction false} HandledWasSent(s: System)
    requires Outbound(s) && Heard(s) && Calm(s)
    ensures Subsequence(s.queue.done, s.host.sent)
    ensures Subsequence(Run(TO_ROBOT, SeekAA, s.heard).out, s.host.sent)
  {
    var w := Frames(s.host.sent);
    assert w[..|s.heard|] == Bytes(s.heard);
    NothingForged(TO_ROBOT, SeekAA, s.host.sent, s.heard);
    SubsequenceTrans(s.queue.done, Run(TO_ROBOT, SeekAA, s.heard).out, s.host.sent);
  }

  lemma {:induction false} SubsequenceIn(a: seq<Packet>, b: seq<Packet>, i: nat) returns (j: nat)
    requires Subsequence(a, b) && i < |a|
    ensures j < |b| && a[i] == b[j]
    decreases |b|
  {
    var b' := b[..|b| - 1];
    if Subsequence(a, b') {
      j := SubsequenceIn(a, b', i);
    } else if i == |a| - 1 {
      j := |b| - 1;
    } else {
      j := SubsequenceIn(a[..|a| - 1], b', i);
    }
  }

  /** A subsequence of packets with ascending numbers has ascending numbers. */
  lemma {:induction false} SubsequenceAscends(a: seq<Packet>, b: seq<Packet>, top: nat)
    requires Subsequence(a, b) && Ascending(b, top)
    ensures Ascending(a, top)
    decreases |b|
  {
    if a != [] {
      var b', n := b[..|b| - 1], |a| - 1;
      if Subsequence(a, b') {
        SubsequenceAscends(a, b', top);
      } else {
        SubsequenceAscends(a[..n], b', top);
        forall i | 0 <= i < n ensures |a[i]| >= 4 && SeqOf(a[i]) <= top && SeqOf(a[i]) < SeqOf(a[n]) {
          var j := SubsequenceIn(a[..n], b', i);
          assert a[..n][i] == a[i] && b'[j] == b[j];
        }
        forall i, j | 0 <= i < j < n ensures |a[i]| >= 4 && |a[j]| >= 4 && SeqOf(a[i]) < SeqOf(a[j]) {
          assert a[..n][i] == a[i] && a[..n][j] == a[j];
        }
      }
    }
  }

  lemma {:induction false} SubsequenceSendable(a: seq<Packet>, b: seq<Packet>)
    requires Subsequence(a, b) && AllSendable(b)
    ensures AllSendable(a)
  {
    forall i | 0 <= i < |a| ensures Sendable(a[i]) { var j := SubsequenceIn(a, b, i); }
  }

  /** Ascending numbers are distinct identities. */
  lemma {:induction false} AscendingIsDistinct(ps: seq<Packet>, top: nat)
    requires AllSendable(ps) && Ascending(ps, top)
    ensures DistinctIds(ps)
  {
  }

  // ---------------------------------------------------------------- every move keeps the invariant

  lemma {:induction false} SendKeeps(s: System, initial: Store, p: Packet)
    requires Inv(s, initial) && Allowed(s, HostSend(p))
    ensures Inv(Make(s, HostSend(p)), initial)
  {
    hide RobotInv;
    hide Run;
    hide Honest;
    hide Send;
    SendAscends(s.host, p);
    SendTakes(s.host, p, Bytes(s.heard) + s.toRobot);
  }

  /** A send adds nothing, or a sendable packet with its whole frame. */
  lemma {:induction false} SendTakes(h: Host, p: Packet, out: seq<uint8>)
    requires |p| >= 4 && (p[0] in TO_ROBOT && TO_ROBOT[p[0]] == p[1] ==> Sendable(p))
    requires AllSendable(h.sent) && AllMatch(TO_ROBOT, h.sent) && |h.ring| <= SIZE_MAX && Frames(h.sent) == out + h.ring
    ensures var h2 := Send(h, p);
            && AllSendable(h2.sent) && AllMatch(TO_ROBOT, h2.sent) && |h2.ring| <= SIZE_MAX
            && Frames(h2.sent) == out + h2.ring
            && h2.rx == h.rx && h2.store == h.store
    ensures h.sent <= Send(h, p).sent && h.sends <= Send(h, p).sends
  {
    hide Frames;
    hide Ascending;
    hide SendSeq;
    hide Frame;
    var q := WithSeq(p, SendSeq(h.sends + 1));
    if p[0] in TO_ROBOT && TO_ROBOT[p[0]] == p[1] {
      assert Sendable(q);
      hide Sendable;
      FramesSnoc(h.sent, q);
      RingBound(h.ring, q);
      assert out + (h.ring + Frame(q)) == out + h.ring + Frame(q);
    }
  }

  lemma {:induction false} RingBound(ring: seq<uint8>, q: Packet)
    requires |ring| <= SIZE_MAX
    ensures Fits(ring, q) ==> |ring + Frame(q)| <= SIZE_MAX
  {
  }

  lemma {:induction false} SendAscends(h: Host, p: Packet)
    requires |p| >= 4 && (h.sends < 0x1_0000 ==> Ascending(h.sent, h.sends))
    ensures Send(h, p).sends < 0x1_0000 ==> Ascending(Send(h, p).sent, Send(h, p).sends)
  {
    hide Fits;
    hide Frame;
  }

  lemma {:induction false} FlushKeeps(s: System, initial: Store)
    requires Inv(s, initial)
    ensures Inv(Make(s, HostFlush), initial)
  {
    hide RobotInv;
    hide Run;
    assert Bytes(s.heard) + (s.toRobot + s.host.ring) + [] == Bytes(s.heard) + s.toRobot + s.host.ring;
  }

  lemma {:induction false} ReadKeeps(s: System, initial: Store)
    requires Inv(s, initial) && s.toHost != []
    ensures Inv(Make(s, HostRead), initial)
  {
    hide RobotInv;
    hide Run;
    hide Honest;
    ReadKeepsInbound(s, initial);
  }

  lemma {:induction false} ReadKeepsInbound(s: System, initial: Store)
    requires Inbound(s, initial) && s.toHost != []
    ensures Inbound(Make(s, HostRead), initial)
  {
    hide RobotInv;
    hide Run;
    hide Apply;
    hide Frames;
    hide Step;
    hide Delivered;
    hide Honest;
    var c := s.toHost[0];
    var i := Input(c, true);
    var before := Offered(s.read);
    assert Offered(s.read + [c]) == before + [i];
    RunConcat(TO_HOST, SeekAA, before, [i]);
    RunLast(TO_HOST, s.host.rx, i);
    ApplyConcat(initial, Run(TO_HOST, SeekAA, before).out, Delivered(TO_HOST, s.host.rx, i));
    assert s.read + [c] + s.toHost[1..] == s.read + s.toHost;
  }

  /** The bytes a cycle reads, as inputs. */
  function HeardNow(s: System, n: nat): seq<Input>
    requires n <= |s.toRobot|
  {
    Inputs(TO_ROBOT, ROBOT_CAPS, s.queue, BytesOf(s.toRobot[..n]))
  }

  lemma {:induction false} HeardNowIs(s: System, n: nat)
    requires n <= |s.toRobot| && Heard(s)
    ensures Bytes(HeardNow(s, n)) == s.toRobot[..n]
    ensures Honest(TO_ROBOT, SeekAA, s.heard + HeardNow(s, n))
    ensures Listen(s, n).rx == Run(TO_ROBOT, SeekAA, s.heard + HeardNow(s, n)).rx
    ensures Subsequence(s.queue.done + Listen(s, n).pending, Run(TO_ROBOT, SeekAA, s.heard + HeardNow(s, n)).out)
    ensures Listen(s, n).done == s.queue.done
  {
    hide Run;
    hide Honest;
    hide Subsequence;
    hide DRun;
    var es := BytesOf(s.toRobot[..n]);
    InputsOfBytes(TO_ROBOT, ROBOT_CAPS, s.queue, es);
    InputsHonest(TO_ROBOT, ROBOT_CAPS, s.queue, es);
    HonestSplit(TO_ROBOT, SeekAA, s.heard, HeardNow(s, n));
    ReceiverProjection(TO_ROBOT, ROBOT_CAPS, s.queue, es);
    RunConcat(TO_ROBOT, SeekAA, s.heard, HeardNow(s, n));
    assert s.queue.done + s.queue.pending == s.queue.done;
    NothingOvertakes(TO_ROBOT, ROBOT_CAPS, s.queue, es, Run(TO_ROBOT, SeekAA, s.heard).out);
    BytesKeepDone(TO_ROBOT, ROBOT_CAPS, s.queue, es);
  }

  lemma {:induction false} CycleKeepsHeard(s: System, n: nat, joints: seq<uint8>, report: Report)
    requires Outbound(s) && Heard(s) && Allowed(s, RobotCycle(n, joints, report))
    ensures Outbound(Make(s, RobotCycle(n, joints, report))) && Heard(Make(s, RobotCycle(n, joints, report)))
  {
    hide Run;
    hide Honest;
    hide Subsequence;
    hide Cycle;
    hide Listen;
    hide Frames;
    hide Ascending;
    hide AllSendable;
    hide AllMatch;
    hide ParamsOk;
    hide Inputs;
    HeardNowIs(s, n);
    Regroup(s.heard, HeardNow(s, n), s.toRobot, n, s.host.ring);
  }

  lemma {:induction false} Regroup(heard: seq<Input>, now: seq<Input>, line: seq<uint8>, n: nat, ring: seq<uint8>)
    requires n <= |line| && Bytes(now) == line[..n]
    ensures Bytes(heard + now) + line[n..] + ring == Bytes(heard) + line + ring
  {
    assert Bytes(heard + now) == Bytes(heard) + line[..n];
    assert line[..n] + line[n..] == line;
    ConcatAssoc(Bytes(heard), line[..n], line[n..]);
  }

  lemma {:induction false} CycleKeepsInbound(s: System, initial: Store, n: nat, joints: seq<uint8>, report: Report)
    requires Inbound(s, initial) && Allowed(s, RobotCycle(n, joints, report))
    ensures Inbound(Make(s, RobotCycle(n, joints, report)), initial)
  {
    hide Run;
    hide Listen;
    hide Cycle;
    hide ParamsOk;
    hide Attempts;
    var ps := Listen(s, n).pending;
    CycleSends(s.robot, ps, joints, report);
    var taken := Accepted([], Attempts(s.robot, ps, joints, report));
    FramesConcat(s.robot.sent, taken);
    assert s.read + (s.toHost + Frames(taken)) == s.read + s.toHost + Frames(taken);
  }

  lemma {:induction false} CycleKeepsRobot(s: System, n: nat, joints: seq<uint8>, report: Report)
    requires Outbound(s) && Heard(s) && RobotInv(s.robot, s.queue.done)
    requires Allowed(s, RobotCycle(n, joints, report)) && Calm(Make(s, RobotCycle(n, joints, report)))
    ensures var s2 := Make(s, RobotCycle(n, joints, report)); RobotInv(s2.robot, s2.queue.done)
  {
    var s2 := Make(s, RobotCycle(n, joints, report));
    var ps := Listen(s, n).pending;
    HeardNowIs(s, n);
    CycleKeepsHeard(s, n, joints, report);
    HandledWasSent(s2);
    SubsequenceSendable(s2.queue.done, s2.host.sent);
    SubsequenceAscends(s2.queue.done, s2.host.sent, s2.host.sends);
    AscendingIsDistinct(s2.queue.done, s2.host.sends);
    CycleKeeps(s.robot, s.queue.done, ps, joints, report);
  }

  /** In a calm system the robot only ever handles packets it can handle. */
  lemma {:induction false} ListenSendable(s: System, n: nat)
    requires Outbound(s) && Heard(s) && n <= |s.toRobot|
    requires s.host.sends < 0x1_0000 && Harmless(TO_ROBOT, s.host.sent, s.heard + HeardNow(s, n))
    ensures AllSendable(Listen(s, n).pending)
  {
    hide Inputs;
    hide Frames;
    hide Frame;
    hide Subsequence;
    hide Harmless;
    hide Ascending;
    hide ParamsOk;
    hide Run;
    hide Listen;
    hide Honest;
    HeardNowIs(s, n);
    var all, now := s.heard + HeardNow(s, n), s.queue.done + Listen(s, n).pending;
    assert Bytes(all) == Bytes(s.heard) + s.toRobot[..n];
    assert Frames(s.host.sent)[..|all|] == Bytes(all);
    NothingForged(TO_ROBOT, SeekAA, s.host.sent, all);
    SubsequenceTrans(now, Run(TO_ROBOT, SeekAA, all).out, s.host.sent);
    SubsequenceSendable(now, s.host.sent);
    forall i | 0 <= i < |Listen(s, n).pending| ensures Sendable(Listen(s, n).pending[i]) {
      assert now[|s.queue.done| + i] == Listen(s, n).pending[i];
    }
  }

  /** Every move keeps the invariant, as long as the system is calm. */
  lemma {:induction false} MakeKeeps(s: System, initial: Store, m: Move)
    requires Inv(s, initial) && Allowed(s, m) && Calm(Make(s, m))
    ensures Inv(Make(s, m), initial)
  {
    match m
    case HostSend(p) => SendKeeps(s, initial, p);
    case HostFlush => FlushKeeps(s, initial);
    case HostRead => ReadKeeps(s, initial);
    case RobotCycle(n, joints, report) =>
      CycleKeepsHeard(s, n, joints, report);
      CycleKeepsInbound(s, initial, n, joints, report);
      CycleKeepsRobot(s, n, joints, report);
  }

  /** A system that is calm was calm before. */
  lemma {:induction false} CalmBefore(s: System, m: Move)
    requires Allowed(s, m) && Calm(Make(s, m))
    ensures Calm(s)
  {
    hide Harmless;
    hide Cycle;
    hide Listen;
    hide Inputs;
    hide Frame;
    var s2 := Make(s, m);
    assert s.host.sent <= s2.host.sent && s.heard <= s2.heard && s.host.sends <= s2.host.sends;
    var sent, heard := s2.host.sent[|s.host.sent|..], s2.heard[|s.heard|..];
    assert s2.host.sent == s.host.sent + sent && s2.heard == s.heard + heard;
    HarmlessBefore(TO_ROBOT, s.host.sent, sent, s.heard, heard);
  }

  // ---------------------------------------------------------------- runs

  /** A fresh system: nothing sent, nothing on the lines. The response variable of the host holds no
      packet type, and the robot has proper parameters. */
  ghost predicate Start(s: System, initial: Store) {
    && s.host == Host(SeekAA, initial, 0, [], [])
    && s.toRobot == [] && s.toHost == [] && s.heard == [] && s.read == []
    && s.queue == Fresh
    && ParamsOk(s.robot.params) && s.robot.ring == [] && s.robot.sent == [] && s.robot.echoed == {}
    && RESPONSE_KEY in initial && |initial[RESPONSE_KEY]| == 8 && initial[RESPONSE_KEY][4] == TYPE_MAX
  }

  const RESPONSE_KEY := Key(RESPONSE, 0)

  lemma {:induction false} StartInv(s: System, initial: Store)
    requires Start(s, initial)
    ensures Inv(s, initial)
  {
    hide Start;
    hide Outbound;
    hide Heard;
    hide Inbound;
    hide RobotInv;
    StartChannels(s, initial);
    StartRobot(s, initial);
  }

  lemma {:induction false} StartChannels(s: System, initial: Store)
    requires Start(s, initial)
    ensures Outbound(s) && Heard(s) && Inbound(s, initial)
  {
    hide ParamsOk;
    assert Apply(initial, []) == initial;
  }

  lemma {:induction false} StartRobot(s: System, initial: Store)
    requires Start(s, initial)
    ensures RobotInv(s.robot, s.queue.done)
  {
    hide ParamsOk;
  }

  ghost predicate Runnable(s: System, ms: seq<Move>)
    decreases |ms|
  {
    ms == [] || (Allowed(s, ms[0]) && Runnable(Make(s, ms[0]), ms[1..]))
  }

  ghost function After(s: System, ms: seq<Move>): System
    requires Runnable(s, ms)
    decreases |ms|
  {
    if ms == [] then s else After(Make(s, ms[0]), ms[1..])
  }

  lemma {:induction false} MoveThenRest(s: System, ms: seq<Move>)
    requires Runnable(s, ms) && ms != []
    ensures Allowed(s, ms[0]) && Runnable(Make(s, ms[0]), ms[1..])
    ensures After(s, ms) == After(Make(s, ms[0]), ms[1..])
  {
    hide Make;
    hide Allowed;
  }

  lemma {:induction false} CalmAlong(s: System, ms: seq<Move>)
    requires Runnable(s, ms) && Calm(After(s, ms))
    ensures Calm(s)
    decreases |ms|
  {
    hide Make;
    hide Calm;
    if ms != [] {
      CalmAlong(Make(s, ms[0]), ms[1..]);
      CalmBefore(s, ms[0]);
    }
  }

  /** The invariant holds after every run of a fresh system that ends calm. */
  lemma {:induction false} RunKeeps(s: System, initial: Store, ms: seq<Move>)
    requires Inv(s, initial) && Runnable(s, ms) && Calm(After(s, ms))
    ensures Inv(After(s, ms), initial)
    decreases |ms|
  {
    hide Make;
    hide Calm;
    hide Inv;
    if ms != [] {
      CalmAlong(Make(s, ms[0]), ms[1..]);
      MakeKeeps(s, initial, ms[0]);
      RunKeeps(Make(s, ms[0]), initial, ms[1..]);
    }
  }

  // ---------------------------------------------------------------- what a response means

  /** The packets the host has received are the first ones the robot sent. */
  lemma {:induction false} ReceivedIsPrefix(s: System, initial: Store) returns (m: nat)
    requires Inv(s, initial)
    ensures m <= |s.robot.sent| && s.host.store == Apply(initial, s.robot.sent[..m])
  {
    m := Complete(s.robot.sent, |s.read|);
    assert AllMatch(TO_HOST, s.robot.sent);
    assert Bytes(Offered(s.read)) == s.read == Frames(s.robot.sent)[..|s.read|];
    RoundTrip(TO_HOST, s.robot.sent, Offered(s.read));
  }

  /** The response the host holds is one the robot sent. */
  lemma {:induction false} HeldResponse(s: System, initial: Store, p: Packet, m: nat) returns (x: nat)
    requires AllFitting(s.robot.sent) && Sendable(p)
    requires RESPONSE_KEY in initial && |initial[RESPONSE_KEY]| == 8 && initial[RESPONSE_KEY][4] == TYPE_MAX
    requires m <= |s.robot.sent| && s.host.store == Apply(initial, s.robot.sent[..m])
    requires RESPONSE_KEY in s.host.store && Answers(s.host.store[RESPONSE_KEY], p)
    ensures x < m && s.robot.sent[x] == s.host.store[RESPONSE_KEY] && s.robot.sent[x][0] == RESPONSE
  {
    var out := s.robot.sent[..m];
    assert NoneEmpty(out);
    ApplyIsLast(initial, out, RESPONSE_KEY);
    assert p[0] < TYPE_MAX;
    var r := LastOf(out, RESPONSE_KEY);
    x :| 0 <= x < |out| && out[x] == r.value;
  }

  /** The packet the robot handled under the identity of a packet the host sent is that very packet. */
  lemma {:induction false} SameIdSamePacket(s: System, initial: Store, i: nat, j: nat)
    requires Inv(s, initial) && Calm(s) && i < |s.host.sent| && j < |s.queue.done|
    requires SameId(s.queue.done[j], s.host.sent[i])
    ensures s.queue.done[j] == s.host.sent[i]
  {
    HandledWasSent(s);
    AscendingIsDistinct(s.host.sent, s.host.sends);
    var x := SubsequenceIn(s.queue.done, s.host.sent, j);
    assert SameId(s.host.sent[x], s.host.sent[i]);
  }

  lemma {:induction false} LastIsNew(ps: seq<Packet>, top: nat)
    requires Ascending(ps, top) && ps != []
    ensures ps[|ps| - 1] !in ps[..|ps| - 1]
  {
    var n := |ps| - 1;
    forall j | 0 <= j < n ensures ps[..n][j] != ps[n] { assert SeqOf(ps[j]) < SeqOf(ps[n]); }
  }

  lemma {:induction false} OnceInAscending(ps: seq<Packet>, top: nat, i: nat)
    requires Ascending(ps, top) && i < |ps|
    ensures multiset(ps)[ps[i]] == 1
    decreases |ps|
  {
    var n := |ps| - 1;
    var before := ps[..n];
    LastIsNew(ps, top);
    assert Ascending(before, top);
    hide Ascending;
    assert ps == before + [ps[n]];
    assert multiset(ps) == multiset(before) + multiset{ps[n]};
    if i < n {
      OnceInAscending(before, top, i);
      assert ps[i] in before;
    }
  }

  /** A response with the type and sequence number of a packet that was sent - this is all that
      OrazioClient_sendPacket looks at before it returns Success - means that the robot ran its handler
      on that very packet, exactly once, and on no other packet of that type and number. */
  lemma {:induction false} ResponseMeansHandledOnce(s0: System, initial: Store, ms: seq<Move>, i: nat)
    requires Start(s0, initial) && Runnable(s0, ms) && Calm(After(s0, ms))
    requires var s := After(s0, ms);
             i < |s.host.sent| && |s.host.sent[i]| >= 4 && RESPONSE_KEY in s.host.store &&
             Answers(s.host.store[RESPONSE_KEY], s.host.sent[i])
    ensures var s := After(s0, ms);
            && multiset(s.queue.done)[s.host.sent[i]] == 1
            && (forall j | 0 <= j < |s.queue.done| ::
                  && |s.queue.done[j]| >= 4
                  && (SameId(s.queue.done[j], s.host.sent[i]) ==> s.queue.done[j] == s.host.sent[i]))
  {
    StartInv(s0, initial);
    RunKeeps(s0, initial, ms);
    var s := After(s0, ms);
    hide Runnable;
    hide After;
    ResponseHandled(s, initial, i);
  }

  lemma {:induction false} ResponseHandled(s: System, initial: Store, i: nat)
    requires Inv(s, initial) && Calm(s)
    requires RESPONSE_KEY in initial && |initial[RESPONSE_KEY]| == 8 && initial[RESPONSE_KEY][4] == TYPE_MAX
    requires i < |s.host.sent| && RESPONSE_KEY in s.host.store && Answers(s.host.store[RESPONSE_KEY], s.host.sent[i])
    ensures multiset(s.queue.done)[s.host.sent[i]] == 1 && s.host.sent[i] in s.queue.done
    ensures forall j | 0 <= j < |s.queue.done| ::
              |s.queue.done[j]| >= 4 && (SameId(s.queue.done[j], s.host.sent[i]) ==> s.queue.done[j] == s.host.sent[i])
  {
    hide Harmless;
    hide Subsequence;
    hide Heard;
    hide Inbound;
    hide ParamsOk;
    hide EchoesCurrent;
    hide LastQuiet;
    hide Written;
    var p, done := s.host.sent[i], s.queue.done;
    var m := ReceivedIsPrefix(s, initial);
    var x := HeldResponse(s, initial, p, m);
    var j :| 0 <= j < |done| && Answers(s.robot.sent[x], done[j]);
    SameIdSamePacket(s, initial, i, j);
    HandledWasSent(s);
    SubsequenceCounts(done, s.host.sent);
    OnceInAscending(s.host.sent, s.host.sends, i);
    assert done[j] in multiset(done);
    forall y | 0 <= y < |done| && SameId(done[y], p) ensures done[y] == p { SameIdSamePacket(s, initial, i, y); }
  }

  // ---------------------------------------------------------------- what an echo means

  /** Agreement: when the latest copy of a parameter was accepted for sending and no copy is still on
      the way, host and robot hold the same parameter. */
  lemma {:induction false} Agreement(s: System, initial: Store, k: Key, m: nat)
    requires EchoesCurrent(s.robot) && k in s.robot.echoed
    requires m <= |s.robot.sent| && s.host.store == Apply(initial, s.robot.sent[..m])
    requires NoneEmpty(s.robot.sent) && forall y | m <= y < |s.robot.sent| :: KeyOf(s.robot.sent[y]) != k
    ensures k in s.host.store && k in s.robot.params.vars && s.host.store[k] == s.robot.params.vars[k]
  {
    var all := s.robot.sent;
    assert all == all[..m] + all[m..];
    LastOfConcat(all[..m], all[m..], k);
    assert NoneEmpty(all[..m]);
    ApplyIsLast(initial, all[..m], k);
  }

  lemma {:induction false} SubsequenceAll(a: seq<Packet>, b: seq<Packet>)
    requires Subsequence(a, b)
    ensures forall p | p in a :: p in b
  {
    forall p | p in a ensures p in b {
      var i :| 0 <= i < |a| && a[i] == p;
      var j := SubsequenceIn(a, b, i);
    }
  }

  lemma {:induction false} LastOfSubsequence(a: seq<Packet>, b: seq<Packet>, top: nat)
    requires Subsequence(a, b) && Ascending(b, top) && b != [] && b[|b| - 1] in a
    ensures a != [] && a[|a| - 1] == b[|b| - 1]
  {
    LastIsNew(b, top);
    if Subsequence(a, b[..|b| - 1]) { SubsequenceAll(a, b[..|b| - 1]); }
  }

  /** The echo comes before the response. The host holds the response to its last packet, of any type: then
      every parameter whose latest copy was not refused by the robot's ring - also one it asked for, loaded or
      saved - is the same on both sides; and one that the packet wrote is what the host wrote, but for the
      number. */
  lemma {:induction false} EchoBeforeResponse(s0: System, initial: Store, ms: seq<Move>)
    requires Start(s0, initial) && Runnable(s0, ms) && Calm(After(s0, ms))
    requires LastAnswered(After(s0, ms))
    ensures Shared(After(s0, ms)) && LastWritten(After(s0, ms))
  {
    StartInv(s0, initial);
    RunKeeps(s0, initial, ms);
    var s := After(s0, ms);
    hide Runnable;
    hide After;
    EchoHeld(s, initial);
  }

  /** The host holds the response to the last packet it sent. */
  predicate LastAnswered(s: System) {
    s.host.sent != [] && var p := s.host.sent[|s.host.sent| - 1];
      |p| >= 5 && RESPONSE_KEY in s.host.store && Answers(s.host.store[RESPONSE_KEY], p)
  }

  /** The copies of host and robot agree on parameter k. */
  predicate SameCopy(s: System, k: Key) {
    k in s.host.store && k in s.robot.params.vars && s.host.store[k] == s.robot.params.vars[k]
  }

  ghost predicate Shared(s: System) { forall k | k in s.robot.echoed :: SameCopy(s, k) }

  /** The parameter that the last packet set holds it on both sides, if its echo was not refused. */
  predicate LastWritten(s: System)
    requires LastAnswered(s)
  {
    var p := s.host.sent[|s.host.sent| - 1];
    IsParam(p[0]) && (p[0] == JOINT_PARAM ==> p[4] < NUM_JOINTS) && KeyOf(p) in s.robot.echoed ==>
      SameCopy(s, KeyOf(p)) && SameBody(s.host.store[KeyOf(p)], p)
  }

  lemma {:induction false} EchoHeld(s: System, initial: Store)
    requires Inv(s, initial) && Calm(s) && LastAnswered(s)
    requires RESPONSE_KEY in initial && |initial[RESPONSE_KEY]| == 8 && initial[RESPONSE_KEY][4] == TYPE_MAX
    ensures Shared(s) && LastWritten(s)
  {
    var n := |s.host.sent| - 1;
    var p, done := s.host.sent[n], s.queue.done;
    var m := ReceivedIsPrefix(s, initial);
    var x := HeldResponse(s, initial, p, m);
    ResponseHandled(s, initial, n);
    HandledWasSent(s);
    LastOfSubsequence(done, s.host.sent, s.host.sends);
    QuietAfter(s.robot, done, p, x, m);
    hide Outbound;
    hide Heard;
    hide Inbound;
    hide ParamsOk;
    hide Answered;
    forall k | k in s.robot.echoed ensures SameCopy(s, k) { Agreement(s, initial, k, m); }
  }

  /** After the response to the packet handled last, nothing is sent for a parameter. */
  lemma {:induction false} QuietAfter(r: Robot, done: seq<Packet>, p: Packet, x: nat, m: nat)
    requires RobotInv(r, done) && done != [] && done[|done| - 1] == p && |p| >= 5
    requires x < m <= |r.sent| && Answers(r.sent[x], p)
    ensures NoneEmpty(r.sent)
    ensures forall k, y | ParamKey(k) && m <= y < |r.sent| :: KeyOf(r.sent[y]) != k
    ensures Written(r.params, p)
  {
    hide ParamsOk;
    hide Answered;
    hide EchoesCurrent;
  }

  // ---------------------------------------------------------------- the echo of one cycle

  /** What the host has sent only grows. */
  lemma {:induction false} SentGrows(s: System, ms: seq<Move>)
    requires Runnable(s, ms)
    ensures s.host.sent <= After(s, ms).host.sent
    decreases |ms|
  {
    if ms != [] {
      MakeGrows(s, ms[0]);
      hide Make;
      SentGrows(Make(s, ms[0]), ms[1..]);
    }
  }

  lemma {:induction false} MakeGrows(s: System, m: Move)
    requires Allowed(s, m)
    ensures s.host.sent <= Make(s, m).host.sent && s.host.sends <= Make(s, m).host.sends
  {
    hide Cycle;
    hide Listen;
    hide Frame;
    hide Inputs;
  }

  /** p is the newest packet the host ever sends in this run. */
  ghost predicate Newest(p: Packet, sent: seq<Packet>) {
    |p| >= 4 && forall i | 0 <= i < |sent| :: |sent[i]| >= 4 && SeqOf(sent[i]) <= SeqOf(p)
  }

  /** Once the newest packet is handled, cycles handle nothing. */
  lemma {:induction false} NothingNewer(s: System, initial: Store, n: nat, joints: seq<uint8>, report: Report,
                                        p: Packet)
    requires Inv(s, initial) && Allowed(s, RobotCycle(n, joints, report))
    requires Calm(Make(s, RobotCycle(n, joints, report)))
    requires p in s.queue.done && Newest(p, s.host.sent)
    ensures Listen(s, n).pending == []
  {
    var m := RobotCycle(n, joints, report);
    var s2, ps := Make(s, m), Listen(s, n).pending;
    MakeKeeps(s, initial, m);
    HeardNowIs(s, n);
    HandledWasSent(s2);
    SubsequenceAscends(s2.queue.done, s2.host.sent, s2.host.sends);
    SubsequenceAll(s2.queue.done, s2.host.sent);
    DoneAfter(s, n, joints, report);
    hide Inv;
    hide Make;
    hide Listen;
    if ps != [] {
      LaterIsNewer(s.queue.done, ps, p, s2.host.sends);
      assert false;
    }
  }

  lemma {:induction false} LaterIsNewer(done: seq<Packet>, ps: seq<Packet>, p: Packet, top: nat)
    requires Ascending(done + ps, top) && p in done && ps != []
    ensures |p| >= 4 && |ps[0]| >= 4 && SeqOf(p) < SeqOf(ps[0]) && ps[0] in done + ps
  {
    var i :| 0 <= i < |done| && done[i] == p;
    assert (done + ps)[i] == p && (done + ps)[|done|] == ps[0];
  }

  lemma {:induction false} DoneAfter(s: System, n: nat, joints: seq<uint8>, report: Report)
    requires Allowed(s, RobotCycle(n, joints, report)) && Listen(s, n).done == s.queue.done
    ensures var s2 := Make(s, RobotCycle(n, joints, report));
            s2.queue.done == s.queue.done + Listen(s, n).pending && s2.host.sent == s.host.sent
  {
    hide Cycle;
    hide Listen;
    hide Inputs;
  }

  /** What a cycle changes besides the queue. */
  lemma {:induction false} CycleMakes(s: System, m: Move)
    requires m.RobotCycle? && Allowed(s, m)
    ensures Make(s, m).robot == Cycle(s.robot, Listen(s, m.bytes).pending, m.joints, m.report).0
    ensures Make(s, m).toHost == s.toHost + Cycle(s.robot, Listen(s, m.bytes).pending, m.joints, m.report).1
    ensures Make(s, m).host == s.host && Make(s, m).read == s.read
  {
    hide Cycle;
    hide Listen;
    hide Inputs;
  }

  /** After the newest packet has been handled, no move takes a parameter from those whose latest copy was accepted. */
  lemma {:induction false} EchoStays(s: System, initial: Store, ms: seq<Move>, p: Packet, k: Key)
    requires Inv(s, initial) && Runnable(s, ms) && Calm(After(s, ms))
    requires p in s.queue.done && k in s.robot.echoed && Newest(p, After(s, ms).host.sent)
    ensures k in After(s, ms).robot.echoed
    decreases |ms|
  {
    if ms != [] {
      var s1 := Make(s, ms[0]);
      CalmAlong(s1, ms[1..]);
      MakeKeeps(s, initial, ms[0]);
      SentGrows(s1, ms[1..]);
      MakeGrows(s, ms[0]);
      NewestBefore(p, s.host.sent, After(s, ms).host.sent);
      EchoStaysOne(s, initial, ms[0], p, k);
      hide Inv;
      hide Make;
      hide Calm;
      EchoStays(s1, initial, ms[1..], p, k);
    }
  }

  lemma {:induction false} NewestBefore(p: Packet, sent: seq<Packet>, more: seq<Packet>)
    requires Newest(p, more) && sent <= more
    ensures Newest(p, sent)
  {
    forall i | 0 <= i < |sent| ensures |sent[i]| >= 4 && SeqOf(sent[i]) <= SeqOf(p) { assert sent[i] == more[i]; }
  }

  lemma {:induction false} EchoStaysOne(s: System, initial: Store, m: Move, p: Packet, k: Key)
    requires Inv(s, initial) && Allowed(s, m) && Calm(Make(s, m))
    requires p in s.queue.done && k in s.robot.echoed && Newest(p, s.host.sent)
    ensures p in Make(s, m).queue.done && k in Make(s, m).robot.echoed
  {
    if m.RobotCycle? {
      NothingNewer(s, initial, m.bytes, m.joints, m.report, p);
      HeardNowIs(s, m.bytes);
      DoneAfter(s, m.bytes, m.joints, m.report);
      CycleEchoes(s.robot, Listen(s, m.bytes).pending, m.joints, m.report);
      hide Inv;
      hide Cycle;
      hide Listen;
      hide Inputs;
    }
  }

  lemma {:induction false} RunnableConcat(s: System, a: seq<Move>, b: seq<Move>)
    requires Runnable(s, a + b)
    ensures Runnable(s, a) && Runnable(After(s, a), b) && After(s, a + b) == After(After(s, a), b)
    decreases |a|
  {
    hide Make;
    hide Allowed;
    if a == [] {
      assert a + b == b;
    } else {
      assert (a + b)[1..] == a[1..] + b && (a + b)[0] == a[0];
      RunnableConcat(Make(s, a[0]), a[1..], b);
    }
  }

  /** What the host learns from a packet that is echoed - a parameter it set, asked for, loaded or saved. It holds
      the response to its last packet; if the one cycle that handled that packet refused no send, the host's copy
      of the echoed parameter is the robot's. Cycles before and after may refuse what they like. */
  lemma {:induction false} EchoOfCycle(s0: System, initial: Store, before: seq<Move>, m: Move, after: seq<Move>,
                                       p: Packet, k: Key)
    requires Start(s0, initial) && Runnable(s0, before + [m] + after) && Calm(After(s0, before + [m] + after))
    requires LastAnswered(After(s0, before + [m] + after))
    requires p == var sent := After(s0, before + [m] + after).host.sent; sent[|sent| - 1]
    requires Runnable(s0, before) && Allowed(After(s0, before), m) && m.RobotCycle?
    requires var s := After(s0, before);
             && p in Listen(s, m.bytes).pending && Sendable(p) && EchoOf(p) == Some(k)
             && |Frames(Attempts(s.robot, Listen(s, m.bytes).pending, m.joints, m.report))| <= SIZE_MAX
    ensures SameCopy(After(s0, before + [m] + after), k)
  {
    hide Start;
    hide Runnable;
    hide After;
    hide LastAnswered;
    hide Calm;
    hide Inv;
    hide Make;
    hide Allowed;
    hide Listen;
    hide Attempts;
    hide Frames;
    hide EchoOf;
    hide Sendable;
    hide LastWritten;
    hide Newest;
    var s, e := After(s0, before), After(s0, before + [m] + after);
    RunnableConcat(s0, before + [m], after);
    RunnableConcat(s0, before, [m]);
    var s1 := After(s0, before + [m]);
    OneMove(s, m);
    StartInv(s0, initial);
    CalmAlong(s1, after);
    RunKeeps(s0, initial, before + [m]);
    CalmAlong(s, [m]);
    RunKeeps(s0, initial, before);
    EchoBeforeResponse(s0, initial, before + [m] + after);
    SentSomething(e);
    LastIsNewest(s0, initial, before + [m] + after);
    CycleAccepts(s, initial, m, p, k);
    EchoStays(s1, initial, after, p, k);
  }

  lemma {:induction false} SentSomething(s: System)
    requires LastAnswered(s)
    ensures s.host.sent != []
  {
  }

  lemma {:induction false} OneMove(s: System, m: Move)
    requires Allowed(s, m)
    ensures Runnable(s, [m]) && After(s, [m]) == Make(s, m)
  {
    hide Make;
    assert After(Make(s, m), []) == Make(s, m);
  }

  lemma {:induction false} LastIsNewest(s0: System, initial: Store, ms: seq<Move>)
    requires Start(s0, initial) && Runnable(s0, ms) && Calm(After(s0, ms)) && After(s0, ms).host.sent != []
    ensures var sent := After(s0, ms).host.sent; Newest(sent[|sent| - 1], sent)
  {
    StartInv(s0, initial);
    RunKeeps(s0, initial, ms);
    hide Runnable;
    hide After;
    AscendingNewest(After(s0, ms).host.sent, After(s0, ms).host.sends);
  }

  lemma {:induction false} AscendingNewest(ps: seq<Packet>, top: nat)
    requires Ascending(ps, top) && ps != []
    ensures Newest(ps[|ps| - 1], ps)
  {
  }

  /** The cycle that handles p, and refuses nothing, accepts its echo. */
  lemma {:induction false} CycleAccepts(s: System, initial: Store, m: Move, p: Packet, k: Key)
    requires Inv(s, initial) && m.RobotCycle? && Allowed(s, m)
    requires p in Listen(s, m.bytes).pending && Sendable(p) && EchoOf(p) == Some(k)
    requires |Frames(Attempts(s.robot, Listen(s, m.bytes).pending, m.joints, m.report))| <= SIZE_MAX
    ensures p in Make(s, m).queue.done && k in Make(s, m).robot.echoed
  {
    hide Make;
    hide Attempts;
    hide Frames;
    hide Listen;
    hide Cycle;
    hide RobotInv;
    hide EchoOf;
    hide Sendable;
    hide EchoesOf;
    hide AllSendable;
    hide ParamsOk;
    hide Report.Valid;
    InvParts(s, initial);
    hide Inv;
    hide Heard;
    var ps := Listen(s, m.bytes).pending;
    HeardNowIs(s, m.bytes);
    DoneAfter(s, m.bytes, m.joints, m.report);
    CycleMakes(s, m);
    CycleEchoes(s.robot, ps, m.joints, m.report);
    EchoIn(ps, p, k);
  }

  lemma {:induction false} InvParts(s: System, initial: Store)
    requires Inv(s, initial)
    ensures Heard(s) && s.robot.ring == [] && ParamsOk(s.robot.params)
  {
    hide Heard;
  }

  lemma {:induction false} EchoIn(ps: seq<Packet>, p: Packet, k: Key)
    requires AllSendable(ps) && p in ps && Sendable(p) && EchoOf(p) == Some(k)
    ensures k in EchoesOf(ps)
  {
    hide EchoOf;
    hide Sendable;
    var i :| 0 <= i < |ps| && ps[i] == p;
    assert EchoOf(ps[i]).Some? && EchoOf(ps[i]).value == k;
  }

  // ---------------------------------------------------------------- what is queued leaves

  /** Every move, also in a system that is not calm, keeps every accepted byte in the ring, on the line or heard. */
  lemma {:induction false} OutboundStays(s: System, m: Move)
    requires Outbound(s) && Heard(s) && Allowed(s, m)
    ensures Outbound(Make(s, m)) && Heard(Make(s, m))
  {
    match m
    case HostSend(p) =>
      hide Heard;
      hide Send;
      hide Frames;
      SendAscends(s.host, p);
      SendTakes(s.host, p, Bytes(s.heard) + s.toRobot);
      SendLeavesRobot(s, p);
    case HostFlush =>
      FlushStays(s);
    case HostRead =>
      ReadStays(s);
    case RobotCycle(n, joints, report) =>
      CycleKeepsHeard(s, n, joints, report);
  }

  lemma {:induction false} SendLeavesRobot(s: System, p: Packet)
    requires Allowed(s, HostSend(p)) && Heard(s)
    ensures Heard(Make(s, HostSend(p)))
  {
    hide Send;
    hide Run;
    hide Honest;
  }

  lemma {:induction false} FlushStays(s: System)
    requires Outbound(s) && Heard(s)
    ensures Outbound(Make(s, HostFlush)) && Heard(Make(s, HostFlush))
  {
    hide Run;
    hide Honest;
    assert Bytes(s.heard) + (s.toRobot + s.host.ring) + [] == Bytes(s.heard) + s.toRobot + s.host.ring;
  }

  lemma {:induction false} ReadStays(s: System)
    requires Outbound(s) && Heard(s) && s.toHost != []
    ensures Outbound(Make(s, HostRead)) && Heard(Make(s, HostRead))
  {
    hide Run;
    hide Honest;
    hide Step;
    hide Apply;
    hide Delivered;
  }

  lemma {:induction false} OutboundAlong(s: System, ms: seq<Move>)
    requires Outbound(s) && Heard(s) && Runnable(s, ms)
    ensures Outbound(After(s, ms)) && Heard(After(s, ms))
    decreases |ms|
  {
    if ms != [] {
      OutboundStays(s, ms[0]);
      hide Make;
      hide Outbound;
      hide Heard;
      OutboundAlong(Make(s, ms[0]), ms[1..]);
    }
  }

  /** In every run: once the host has flushed, the frames of all packets its ring ever accepted are what the robot has
      heard and what is on the line to it, in order. A packet accepted somewhere in the run is among them, whatever
      was read, sent or handled between its send and the flush. */
  lemma {:induction false} QueuedLeaves(s0: System, initial: Store, ms: seq<Move>, p: Packet, rest: seq<Move>)
    requires Start(s0, initial) && Runnable(s0, ms + ([HostSend(p)] + rest + [HostFlush]))
    ensures Runnable(s0, ms) && |p| >= 4
    ensures var e := After(s0, ms + ([HostSend(p)] + rest + [HostFlush]));
            var sent := Send(After(s0, ms).host, p).sent;
            Bytes(e.heard) + e.toRobot == Frames(e.host.sent) && sent <= e.host.sent
            && Frames(sent) <= Bytes(e.heard) + e.toRobot
  {
    var tail := [HostSend(p)] + rest + [HostFlush];
    RunnableConcat(s0, ms, tail);
    var s1 := After(s0, ms);
    MoveThenRest(s1, tail);
    var s2 := Make(s1, tail[0]);
    assert tail[1..] == rest + [HostFlush];
    SentGrows(s2, tail[1..]);
    var e := After(s2, tail[1..]);
    RunnableConcat(s2, rest, [HostFlush]);
    OneMove(After(s2, rest), HostFlush);
    assert e.host.ring == [];
    StartInv(s0, initial);
    OutboundAlong(s0, ms + tail);
    hide After;
    assert Bytes(e.heard) + e.toRobot + [] == Bytes(e.heard) + e.toRobot;
    FramesPrefix(s2.host.sent, e.host.sent);
  }

  lemma {:induction false} FramesPrefix(a: seq<Packet>, b: seq<Packet>)
    requires a <= b
    ensures Frames(a) <= Frames(b)
  {
    assert b == a + b[|a|..];
    FramesConcat(a, b[|a|..]);
  }
}
