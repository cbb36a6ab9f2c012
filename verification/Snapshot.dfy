/** What the loops of the client achieve in a run of the two machines, with firmware cycles between their
    reads: sync returns with a consistent snapshot, and a successful blocking send was handled exactly once. */
module Snapshots {
  import opened Words
  import opened Packets
  import opened Receiver
  import opened Delivery
  import opened Transmit
  import opened Deferred
  import opened Messages
  import opened Firmware
  import opened Epochs
  import opened Protocol
  import opened Clients

  // ---------------------------------------------------------------- the epochs of a run

  /** One communication cycle of a run: the robot before it, the packets it handles, its oracles. */
  datatype Round = Round(robot: Robot, ps: seq<Packet>, joints: seq<uint8>, report: Report)
  {
    ghost predicate Valid() { AllSendable(ps) && ParamsOk(robot.params) && |joints| == |ps| && report.Valid() }

    /** All it sends when nothing is refused. */
    ghost function Sends(): seq<Packet>
      requires Valid()
    {
      Attempts(robot, ps, joints, report)
    }

    /** The status variables it reports. */
    ghost predicate Reports(k: Key)
      requires Valid()
    {
      Enabled(Mask(Firmware.Cycle(robot, ps, joints, report).0.params), report, k)
    }
  }

  ghost predicate AllValid(rs: seq<Round>) { forall i | 0 <= i < |rs| :: rs[i].Valid() }

  ghost function Rounds(s: System, ms: seq<Move>): (rs: seq<Round>)
    requires Runnable(s, ms)
    ensures AllValid(rs)
    decreases |ms|
  {
    if ms == [] then []
    else
      (if ms[0].RobotCycle? then [Round(s.robot, Listen(s, ms[0].bytes).pending, ms[0].joints, ms[0].report)] else [])
      + Rounds(Make(s, ms[0]), ms[1..])
  }

  /** No cycle refuses a send: its frames fit the ring. */
  ghost predicate NoneRefused(rs: seq<Round>)
    requires AllValid(rs)
  {
    forall i | 0 <= i < |rs| :: |Frames(rs[i].Sends())| <= SIZE_MAX
  }

  ghost function AllSends(rs: seq<Round>): seq<Packet>
    requires AllValid(rs)
  {
    if rs == [] then [] else rs[0].Sends() + AllSends(rs[1..])
  }

  /** The number of the i-th epoch after g. */
  function Number(g: Seq16, i: nat): Seq16 { (g + i + 1) % 0x1_0000 }

  /** The rounds send epochs, numbered upwards from g. */
  ghost predicate Numbered(rs: seq<Round>, g: Seq16)
    requires AllValid(rs)
  {
    forall i | 0 <= i < |rs| :: IsEpoch(rs[i].Sends(), Number(g, i))
  }

  lemma {:induction false} NumberNext(g: Seq16, i: nat)
    ensures NextSeq(g) == Number(g, 0) && Number(NextSeq(g), i) == Number(g, i + 1)
  {
  }

  lemma {:induction false} NumberedCons(r: Round, rs: seq<Round>, g: Seq16)
    requires r.Valid() && (AllValid(rs))
    requires IsEpoch(r.Sends(), NextSeq(g)) && Numbered(rs, NextSeq(g))
    ensures AllValid([r] + rs) && Numbered([r] + rs, g)
  {
    hide Round.Valid;
    hide IsEpoch;
    var all := [r] + rs;
    forall i | 0 <= i < |all| ensures all[i].Valid() && IsEpoch(all[i].Sends(), Number(g, i)) {
      if i > 0 { NumberNext(g, i - 1); } else { NumberNext(g, 0); }
    }
  }

  /** A round that refuses nothing. */
  lemma {:induction false} RoundSends(r: Round)
    requires r.Valid() && r.robot.ring == []
    ensures IsEpoch(r.Sends(), NextSeq(r.robot.globalSeq)) && AllFitting(r.Sends())
    ensures var n := Firmware.Cycle(r.robot, r.ps, r.joints, r.report).0;
            && n.ring == [] && n.globalSeq == NextSeq(r.robot.globalSeq)
            && (|Frames(r.Sends())| <= SIZE_MAX ==> n.sent == r.robot.sent + r.Sends())
            && (exists taken :: n.sent == r.robot.sent + taken && AllFitting(taken) &&
                                Firmware.Cycle(r.robot, r.ps, r.joints, r.report).1 == Frames(taken))
  {
    CycleIsEpoch(r.robot, r.ps, r.joints, r.report);
    NothingRefusedIff(r.robot, r.ps, r.joints, r.report);
    CycleSends(r.robot, r.ps, r.joints, r.report);
    AttemptsFit(r.robot, r.ps, r.joints, r.report);
    hide Attempts;
    hide Firmware.Cycle;
    hide ParamsOk;
    AcceptedFit([], r.Sends());
  }

  lemma {:induction false} AcceptedFit(ring: seq<uint8>, ps: seq<Packet>)
    requires AllFitting(ps)
    ensures AllFitting(Accepted(ring, ps))
    decreases |ps|
  {
    hide Frame;
    if ps != [] { AcceptedFit(Push(ring, ps[0]), ps[1..]); }
  }

  /** Everything a cycle attempts to send is a packet the host expects. */
  lemma {:induction false} AttemptsFit(r: Robot, ps: seq<Packet>, joints: seq<uint8>, report: Report)
    requires AllSendable(ps) && ParamsOk(r.params) && |joints| == |ps| && report.Valid()
    ensures AllFitting(Attempts(r, ps, joints, report))
  {
    var r0 := r.(globalSeq := NextSeq(r.globalSeq));
    var r1 := HandleAll(r0, ps, joints);
    HandleAllOk(r0, ps, joints);
    AllSendsFit(r0, ps, joints);
    PeriodicPlain(Mask(r1.params), report);
    hide PeriodicSends;
    hide ParamsOk;
    hide HandleAll;
    StampedFit(PeriodicSends(Mask(r1.params), report), r0.globalSeq);
  }

  lemma {:induction false} StampedFit(ps: seq<Packet>, g: Seq16)
    requires Plain(ps) && AtLeastHeaders(ps)
    ensures AllFitting(Stamped(ps, g))
  {
  }

  lemma {:induction false} AllSendsFit(r: Robot, ps: seq<Packet>, joints: seq<uint8>)
    requires AllSendable(ps) && ParamsOk(r.params) && |joints| == |ps|
    ensures AllFitting(AllSendsOf(r, ps, joints))
    decreases |ps|
  {
    hide ParamsOk;
    hide HandleOne;
    if ps != [] {
      HandleOneOk(r, ps[0], joints[0]);
      SendsFit(r.params, r.globalSeq, ps[0], joints[0]);
      hide SendsOf;
      AllSendsFit(HandleOne(r, ps[0], joints[0]), ps[1..], joints[1..]);
    }
  }

  lemma {:induction false} SendsFit(s: Params, g: Seq16, p: Packet, joints: uint8)
    requires Sendable(p) && ParamsOk(s)
    ensures AllFitting(SendsOf(s, g, p, joints))
  {
    EchoFits(s, p, joints);
    HandleOk(s, p, joints);
    hide Handle;
    hide ParamsOk;
  }

  /** From one state of the robot to a later one, the rounds are sent, and numbered upwards modulo 2^16. */
  ghost predicate Sent(r: Robot, e: Robot, rs: seq<Round>)
    requires AllValid(rs)
  {
    && e.sent == r.sent + AllSends(rs) && Numbered(rs, r.globalSeq)
    && e.ring == [] && e.globalSeq == (r.globalSeq + |rs|) % 0x1_0000
  }

  /** A run in which nothing is refused sends epochs only: all packets the robot ever sent are the epochs of its
      cycles one after the other. */
  lemma {:induction false} RunSendsEpochs(s: System, ms: seq<Move>)
    requires Runnable(s, ms) && s.robot.ring == [] && NoneRefused(Rounds(s, ms))
    ensures Sent(s.robot, After(s, ms).robot, Rounds(s, ms))
    decreases |ms|
  {
    hide Frames;
    hide Firmware.Cycle;
    hide Round.Sends;
    hide Listen;
    hide IsEpoch;
    hide ParamsOk;
    if ms == [] {
      assert s.robot.sent + [] == s.robot.sent;
    } else {
      MoveThenRest(s, ms);
      RoundsCons(s, ms);
      hide Rounds;
      hide After;
      hide Runnable;
      hide Sent;
      hide Round.Valid;
      hide NoneRefused;
      var s1 := Make(s, ms[0]);
      var rest := Rounds(s1, ms[1..]);
      if ms[0].RobotCycle? {
        TailRefusesNothing(RoundOf(s, ms[0]), rest);
        CycleSendsEpoch(s, ms[0]);
        hide Make;
        hide Allowed;
        RunSendsEpochs(s1, ms[1..]);
        SentCons(RoundOf(s, ms[0]), s1.robot, After(s1, ms[1..]).robot, rest);
      } else {
        RobotRests(s, ms[0]);
        hide Make;
        hide Allowed;
        RunSendsEpochs(s1, ms[1..]);
      }
    }
  }

  lemma {:induction false} CycleSendsEpoch(s: System, m: Move)
    requires m.RobotCycle? && Allowed(s, m) && s.robot.ring == [] && RoundOf(s, m).Valid()
    requires |Frames(RoundOf(s, m).Sends())| <= SIZE_MAX
    ensures var n := Make(s, m).robot;
            && n.ring == [] && n.sent == s.robot.sent + RoundOf(s, m).Sends()
            && n.globalSeq == NextSeq(s.robot.globalSeq)
            && IsEpoch(RoundOf(s, m).Sends(), n.globalSeq)
  {
    CycleMakes(s, m);
    RoundSends(RoundOf(s, m));
    hide Make;
    hide Listen;
    hide Frames;
    hide Round.Valid;
    hide Round.Sends;
    hide Firmware.Cycle;
    hide IsEpoch;
  }

  function RoundOf(s: System, m: Move): Round
    requires m.RobotCycle? && m.bytes <= |s.toRobot|
  {
    Round(s.robot, Listen(s, m.bytes).pending, m.joints, m.report)
  }

  lemma {:induction false} RoundsCons(s: System, ms: seq<Move>)
    requires Runnable(s, ms) && ms != [] && Allowed(s, ms[0]) && Runnable(Make(s, ms[0]), ms[1..])
    ensures ms[0].RobotCycle? ==>
              RoundOf(s, ms[0]).Valid() && Rounds(s, ms) == [RoundOf(s, ms[0])] + Rounds(Make(s, ms[0]), ms[1..])
    ensures !ms[0].RobotCycle? ==> Rounds(s, ms) == Rounds(Make(s, ms[0]), ms[1..])
  {
    hide Make;
    hide Listen;
    hide ParamsOk;
    hide AllSendable;
    hide Report.Valid;
  }

  lemma {:induction false} SentCons(r: Round, n: Robot, e: Robot, rest: seq<Round>)
    requires r.Valid() && AllValid(rest) && Sent(n, e, rest)
    requires n.sent == r.robot.sent + r.Sends() && n.globalSeq == NextSeq(r.robot.globalSeq)
    requires IsEpoch(r.Sends(), n.globalSeq)
    ensures AllValid([r] + rest) && Sent(r.robot, e, [r] + rest)
  {
    hide IsEpoch;
    hide Round.Valid;
    hide Round.Sends;
    NumberedCons(r, rest, r.robot.globalSeq);
    hide Numbered;
    assert ([r] + rest)[1..] == rest && ([r] + rest)[0] == r;
    ConcatAssoc(r.robot.sent, r.Sends(), AllSends(rest));
  }

  lemma {:induction false} TailRefusesNothing(r: Round, rest: seq<Round>)
    requires r.Valid() && AllValid(rest)
    requires AllValid([r] + rest) && NoneRefused([r] + rest)
    ensures |Frames(r.Sends())| <= SIZE_MAX && NoneRefused(rest)
  {
    hide Round.Valid;
    hide Frames;
    var all := [r] + rest;
    assert all[0] == r;
    forall i | 0 <= i < |rest| ensures |Frames(rest[i].Sends())| <= SIZE_MAX { assert all[i + 1] == rest[i]; }
  }

  lemma {:induction false} RobotRests(s: System, m: Move)
    requires !m.RobotCycle? && Allowed(s, m)
    ensures Make(s, m).robot == s.robot
  {
  }

  // ---------------------------------------------------------------- what the host has read

  /** The way back holds in every run, whatever the firmware's receiver made of the host's frames. */
  ghost predicate Back(s: System, initial: Store) { Inbound(s, initial) && AllFitting(s.robot.sent) }

  lemma {:induction false} BackKeeps(s: System, initial: Store, m: Move)
    requires Back(s, initial) && Allowed(s, m)
    ensures Back(Make(s, m), initial)
  {
    hide Run;
    match m
    case RobotCycle(n, joints, report) =>
      CycleKeepsInbound(s, initial, n, joints, report);
      CycleMakes(s, m);
      RoundSends(Round(s.robot, Listen(s, n).pending, joints, report));
      hide Make;
    case HostRead => ReadKeepsInbound(s, initial);
    case HostSend(p) => SendKeepsReceiver(s.host, p);
    case HostFlush =>
  }

  lemma {:induction false} SendKeepsReceiver(h: Host, p: Packet)
    requires |p| >= 4
    ensures Protocol.Send(h, p).rx == h.rx && Protocol.Send(h, p).store == h.store
  {
  }

  lemma {:induction false} RunBack(s: System, initial: Store, ms: seq<Move>)
    requires Back(s, initial) && Runnable(s, ms)
    ensures Back(After(s, ms), initial)
    decreases |ms|
  {
    if ms != [] {
      BackKeeps(s, initial, ms[0]);
      hide Make;
      hide Back;
      RunBack(Make(s, ms[0]), initial, ms[1..]);
    }
  }

  /** All packets the host has received so far. */
  function Got(s: System): seq<Packet> { Run(TO_HOST, SeekAA, Offered(s.read)).out }

  /** They are the first ones the robot sent, and have been copied into the variables in this order. */
  lemma {:induction false} GotIsPrefix(s: System, initial: Store)
    requires Back(s, initial)
    ensures Got(s) <= s.robot.sent && s.host.store == Apply(initial, Got(s)) && NoneEmpty(Got(s))
    ensures s.host.rx == Run(TO_HOST, SeekAA, Offered(s.read)).rx
  {
    hide Run;
    assert AllMatch(TO_HOST, s.robot.sent);
    assert Bytes(Offered(s.read)) == s.read == Frames(s.robot.sent)[..|s.read|];
    RoundTrip(TO_HOST, s.robot.sent, Offered(s.read));
  }

  /** Reads in a run: whatever else happens in between, receiver and variables change by the bytes read. */
  lemma {:induction false} ReadsInRun(s: System, ms: seq<Move>)
    requires Runnable(s, ms)
    ensures var e := After(s, ms);
            && s.read <= e.read
            && e.host.rx == ReadAll(s.host, e.read[|s.read|..]).rx
            && e.host.store == ReadAll(s.host, e.read[|s.read|..]).store
    decreases |ms|
  {
    hide Run;
    hide ReadAll;
    hide Received;
    if ms == [] {
      assert s.read[|s.read|..] == [];
      NothingReceived(s.host);
    } else {
      MoveThenRest(s, ms);
      hide After;
      hide Runnable;
      var s1, e := Make(s, ms[0]), After(s, ms);
      ReadsInMove(s, ms[0]);
      hide Make;
      hide Allowed;
      ReadsInRun(s1, ms[1..]);
      var a, b := s1.read[|s.read|..], e.read[|s1.read|..];
      assert e.read[|s.read|..] == a + b;
      ReadAllConcat(s.host, a, b);
      SameReader(s1.host, ReadAll(s.host, a), b);
    }
  }

  lemma {:induction false} ReadsInMove(s: System, m: Move)
    requires Allowed(s, m)
    ensures var e := Make(s, m);
            && s.read <= e.read
            && e.host.rx == ReadAll(s.host, e.read[|s.read|..]).rx
            && e.host.store == ReadAll(s.host, e.read[|s.read|..]).store
  {
    var e := Make(s, m);
    NothingReceived(s.host);
    match m
    case RobotCycle(_, _, _) =>
      CycleMakes(s, m);
      hide Make;
      assert s.read[|s.read|..] == [];
    case HostRead =>
      assert e.read[|s.read|..] == [] + [s.toHost[0]];
      ReadAllSnoc(s.host, [], s.toHost[0]);
    case HostSend(p) =>
      SendKeepsReceiver(s.host, p);
      assert s.read[|s.read|..] == [];
    case HostFlush =>
      assert s.read[|s.read|..] == [];
  }

  /** What reading does depends on receiver and variables only. */
  lemma {:induction false} SameReader(g: Host, h: Host, b: seq<uint8>)
    requires g.rx == h.rx && g.store == h.store
    ensures ReadAll(g, b).rx == ReadAll(h, b).rx && ReadAll(g, b).store == ReadAll(h, b).store
    ensures Received(g, b) == Received(h, b)
  {
    hide Run;
    ReadAllIs(g, b);
    ReadAllIs(h, b);
  }

  /** The packets received in a run are those received before and those received now. */
  lemma {:induction false} GotInRun(s: System, initial: Store, ms: seq<Move>)
    requires Back(s, initial) && Runnable(s, ms)
    ensures var e := After(s, ms); s.read <= e.read && Got(e) == Got(s) + Received(s.host, e.read[|s.read|..])
  {
    ReadsInRun(s, ms);
    GotIsPrefix(s, initial);
    hide Runnable;
    hide After;
    hide Back;
    GotGrows(s, After(s, ms));
  }

  lemma {:induction false} GotGrows(s: System, e: System)
    requires s.read <= e.read && s.host.rx == Run(TO_HOST, SeekAA, Offered(s.read)).rx
    ensures Got(e) == Got(s) + Received(s.host, e.read[|s.read|..])
  {
    hide Run;
    var b := e.read[|s.read|..];
    assert e.read == s.read + b;
    assert Offered(s.read + b) == Offered(s.read) + Offered(b);
    RunConcat(TO_HOST, SeekAA, Offered(s.read), Offered(b));
  }

  // ---------------------------------------------------------------- sync

  /** A sync returns with an EndEpoch packet. */
  lemma {:induction false} SyncEndsWithEpoch(h: Host, line: seq<uint8>, n: nat)
    requires SyncDone(h, line, n) && NoneEmpty(Received(h, line[..n]))
    ensures EndsEpoch(Received(h, line[..n]), |Received(h, line[..n])|)
  {
    hide Run;
    var got := Received(h, line[..n]);
    var m := |got| - 1;
    assert got == got[..m] + [got[m]];
    ApplySnoc(h.store, got[..m], got[m]);
  }

  /** The m-th packet is an EndEpoch packet. */
  predicate EndsEpoch(ps: seq<Packet>, m: nat) { 0 < m <= |ps| && ps[m - 1] != [] && ps[m - 1][0] == END_EPOCH }

  /** The first m packets are the rounds up to the i-th. */
  ghost predicate Whole(rs: seq<Round>, i: nat, m: nat)
    requires AllValid(rs)
  {
    i < |rs| && m <= |AllSends(rs)| && AllSends(rs)[..m] == AllSends(rs[..i]) + rs[i].Sends()
  }

  lemma {:induction false} WholeLater(rs: seq<Round>, i: nat, m: nat)
    requires AllValid(rs) && rs != [] && AllValid(rs[1..]) && m > |rs[0].Sends()|
    requires Whole(rs[1..], i, m - |rs[0].Sends()|)
    ensures Whole(rs, i + 1, m)
  {
    hide Round.Valid;
    hide Round.Sends;
    var first, tail := rs[0].Sends(), rs[1..];
    PastFirst(first, AllSends(tail), m);
    assert rs[..i + 1][1..] == tail[..i] && rs[..i + 1][0] == rs[0];
    ConcatAssoc(first, AllSends(tail[..i]), tail[i].Sends());
  }

  /** A prefix of the packets sent that ends with an EndEpoch packet is some whole epochs. */
  lemma {:induction false} EndsWithRound(rs: seq<Round>, g: Seq16, m: nat) returns (i: nat)
    requires AllValid(rs) && Numbered(rs, g)
    requires EndsEpoch(AllSends(rs), m)
    ensures Whole(rs, i, m)
    decreases |rs|
  {
    hide Round.Valid;
    hide Round.Sends;
    var first, tail := rs[0].Sends(), rs[1..];
    if m <= |first| {
      NotInside(first, AllSends(tail), Number(g, 0), m);
      i := 0;
      assert rs[..0] == [];
    } else {
      NumberedTail(rs, g);
      PastFirst(first, AllSends(tail), m);
      hide Numbered;
      hide Whole;
      i := EndsWithRound(tail, NextSeq(g), m - |first|);
      WholeLater(rs, i, m);
      i := i + 1;
    }
  }

  /** Only the last packet of an epoch ends it. */
  lemma {:induction false} NotInside(first: seq<Packet>, rest: seq<Packet>, g: Seq16, m: nat)
    requires IsEpoch(first, g) && m <= |first| && EndsEpoch(first + rest, m)
    ensures (first + rest)[..m] == [] + first
  {
    assert (first + rest)[m - 1] == first[m - 1];
  }

  lemma {:induction false} PastFirst(first: seq<Packet>, rest: seq<Packet>, m: nat)
    requires |first| < m <= |first + rest|
    ensures (first + rest)[..m] == first + rest[..m - |first|]
    ensures EndsEpoch(first + rest, m) ==> EndsEpoch(rest, m - |first|)
  {
  }

  lemma {:induction false} NumberedTail(rs: seq<Round>, g: Seq16)
    requires AllValid(rs) && Numbered(rs, g) && rs != []
    ensures Numbered(rs[1..], NextSeq(g))
  {
    hide Round.Valid;
    hide IsEpoch;
    forall i | 0 <= i < |rs| - 1 ensures IsEpoch(rs[1..][i].Sends(), Number(NextSeq(g), i)) {
      NumberNext(g, i);
      assert IsEpoch(rs[i + 1].Sends(), Number(g, i + 1));
    }
  }

  /** Variables after an epoch: its number, and every status variable of its cycle with that number. */
  ghost predicate Snapshot(store: Store, r: Round, g: Seq16)
    requires r.Valid()
  {
    HasEpoch(store) && EpochSeq(store) == g && forall k | r.Reports(k) :: Shows(store, k, g)
  }

  lemma {:induction false} RoundShows(store: Store, r: Round, g: Seq16)
    requires r.Valid() && IsEpoch(r.Sends(), g) && NoneEmpty(r.Sends())
    ensures Snapshot(Apply(store, r.Sends()), r, g)
  {
    var ps := r.Sends();
    SnapshotKey(store, ps, g, |ps| - 1);
    forall k | r.Reports(k) ensures Shows(Apply(store, ps), k, g) {
      var i := EnabledIsAttempted(r.robot, r.ps, r.joints, r.report, k);
      SnapshotKey(store, ps, g, i);
    }
  }

  /** Epoch snapshot, over whole runs. No cycle has refused a send, and the last packet the host has received is an
      EndEpoch packet: then it shows the snapshot of one cycle of the run. */
  lemma {:induction false} EpochEndShows(s0: System, initial: Store, ms: seq<Move>) returns (i: nat)
    requires Start(s0, initial) && Runnable(s0, ms) && NoneRefused(Rounds(s0, ms))
    requires EndsEpoch(Got(After(s0, ms)), |Got(After(s0, ms))|)
    ensures i < |Rounds(s0, ms)| && Snapshot(After(s0, ms).host.store, Rounds(s0, ms)[i], Number(s0.robot.globalSeq, i))
  {
    hide Runnable;
    hide After;
    hide Rounds;
    hide NoneRefused;
    hide Back;
    hide Got;
    hide EndsEpoch;
    hide Snapshot;
    hide Numbered;
    StartBack(s0, initial);
    hide Start;
    RunBack(s0, initial, ms);
    RunSendsEpochs(s0, ms);
    var e, rs := After(s0, ms), Rounds(s0, ms);
    assert [] + AllSends(rs) == AllSends(rs);
    i := EpochEndAt(e, initial, rs, s0.robot.globalSeq);
  }

  lemma {:induction false} StartBack(s: System, initial: Store)
    requires Start(s, initial)
    ensures Back(s, initial) && s.robot.ring == [] && s.robot.sent == []
  {
    hide ParamsOk;
    assert Apply(initial, []) == initial;
  }

  lemma {:induction false} EpochEndAt(e: System, initial: Store, rs: seq<Round>, g: Seq16) returns (i: nat)
    requires AllValid(rs) && Numbered(rs, g) && Back(e, initial) && e.robot.sent == AllSends(rs)
    requires EndsEpoch(Got(e), |Got(e)|)
    ensures i < |rs| && Snapshot(e.host.store, rs[i], Number(g, i))
  {
    GotIsPrefix(e, initial);
    var got := Got(e);
    hide Got;
    hide Back;
    hide Round.Valid;
    hide Round.Sends;
    hide Numbered;
    hide AllSends;
    assert got[|got| - 1] == e.robot.sent[|got| - 1] && got == e.robot.sent[..|got|];
    i := EndsWithRound(rs, g, |got|);
    StoreShows(initial, got, rs, i, g);
  }

  lemma {:induction false} StoreShows(initial: Store, got: seq<Packet>, rs: seq<Round>, i: nat, g: Seq16)
    requires AllValid(rs) && Numbered(rs, g) && i < |rs|
    requires got == AllSends(rs[..i]) + rs[i].Sends() && NoneEmpty(got)
    ensures Snapshot(Apply(initial, got), rs[i], Number(g, i))
  {
    hide Round.Valid;
    hide Round.Sends;
    hide Snapshot;
    hide IsEpoch;
    var a, b := AllSends(rs[..i]), rs[i].Sends();
    assert forall j | 0 <= j < |b| :: b[j] == got[|a| + j];
    ApplyConcat(initial, a, b);
    RoundShows(Apply(initial, a), rs[i], Number(g, i));
  }

  /** The promise of OrazioClient_sync, over whole runs. It starts in any state of a run - at the beginning of an
      epoch or inside one, as after a blocking send - and reads on while firmware cycles go on. If no cycle of the
      run refused a send and sync returns, then end_epoch has the number of one cycle of the run, and every status
      variable enabled in that cycle has the same number. */
  lemma {:induction false} SyncSnapshot(s0: System, initial: Store, ms: seq<Move>, rest: seq<Move>, line: seq<uint8>,
                                        n: nat)
    returns (i: nat)
    requires Start(s0, initial) && Runnable(s0, ms) && Runnable(After(s0, ms), rest) && Runnable(s0, ms + rest)
    requires NoneRefused(Rounds(s0, ms + rest))
    requires SyncDone(After(s0, ms).host, line, n) && After(s0, ms + rest).read == After(s0, ms).read + line[..n]
    ensures i < |Rounds(s0, ms + rest)|
    ensures Snapshot(After(s0, ms + rest).host.store, Rounds(s0, ms + rest)[i], Number(s0.robot.globalSeq, i))
  {
    var s, e := After(s0, ms), After(s0, ms + rest);
    hide Start;
    hide Runnable;
    hide After;
    hide Rounds;
    hide NoneRefused;
    hide Numbered;
    hide Snapshot;
    RunnableConcat(s0, ms, rest);
    StartBack(s0, initial);
    RunBack(s0, initial, ms);
    RunBack(s0, initial, ms + rest);
    GotInRun(s, initial, rest);
    GotIsPrefix(e, initial);
    assert e.read[|s.read|..] == line[..n];
    hide Run;
    hide Back;
    ReceivedEnd(s, e, line, n);
    i := EpochEndShows(s0, initial, ms + rest);
  }

  lemma {:induction false} ReceivedEnd(s: System, e: System, line: seq<uint8>, n: nat)
    requires SyncDone(s.host, line, n) && Got(e) == Got(s) + Received(s.host, line[..n]) && NoneEmpty(Got(e))
    ensures EndsEpoch(Got(e), |Got(e)|)
  {
    hide Run;
    hide Got;
    hide Received;
    var got := Received(s.host, line[..n]);
    assert forall j | 0 <= j < |got| :: got[j] == Got(e)[|Got(s)| + j];
    SyncEndsWithEpoch(s.host, line, n);
  }

  /** The same for one cycle, seen from its bytes: a host between frames that holds the number before it, and calls
      sync where the bytes of the cycle begin. If sync returns it has read exactly these bytes, and every status
      variable enabled in the cycle has its number. */
  lemma {:induction false} SyncShowsCycle(r: Round, h: Host, line: seq<uint8>, n: nat, k: Key)
    requires r.Valid() && r.robot.ring == [] && |Frames(r.Sends())| <= SIZE_MAX && r.Reports(k)
    requires SyncDone(h, line, n) && h.rx == SeekAA && EpochSeq(h.store) == r.robot.globalSeq
    requires Frames(r.Sends()) <= line
    ensures n == |Frames(r.Sends())| && Shows(ReadAll(h, line[..n]).store, k, NextSeq(r.robot.globalSeq))
  {
    hide Round.Valid;
    hide Round.Sends;
    hide Round.Reports;
    hide IsEpoch;
    hide Run;
    hide SyncDone;
    hide ReadAll;
    RoundFacts(r, h.store, k);
    SyncReadsOneEpoch(h, line, n, r.Sends(), NextSeq(r.robot.globalSeq));
    ReadAllIs(h, line[..n]);
  }

  lemma {:induction false} RoundFacts(r: Round, store: Store, k: Key)
    requires r.Valid() && r.robot.ring == [] && r.Reports(k)
    ensures IsEpoch(r.Sends(), NextSeq(r.robot.globalSeq)) && AllMatch(TO_HOST, r.Sends())
    ensures Shows(Apply(store, r.Sends()), k, NextSeq(r.robot.globalSeq))
  {
    RoundSends(r);
    hide Round.Valid;
    hide Round.Sends;
    hide Round.Reports;
    hide IsEpoch;
    FittingMatches(r.Sends());
    RoundShows(store, r, NextSeq(r.robot.globalSeq));
  }

  lemma {:induction false} FittingMatches(ps: seq<Packet>)
    requires AllFitting(ps)
    ensures AllMatch(TO_HOST, ps) && NoneEmpty(ps)
  {
  }

  // ---------------------------------------------------------------- a host that only drives

  /** Between cycles the deferred handler is in order. */
  lemma {:induction false} QueueGood(s: System)
    requires Heard(s)
    ensures Good(TO_ROBOT, ROBOT_CAPS, s.queue)
  {
    hide Run;
    RunSound(TO_ROBOT, SeekAA, s.heard);
  }

  lemma {:induction false} ListenGood(s: System, n: nat)
    requires Heard(s) && n <= |s.toRobot|
    ensures Good(TO_ROBOT, ROBOT_CAPS, Listen(s, n))
  {
    QueueGood(s);
    hide Heard;
    hide DRun;
    hide Good;
    RunGood(TO_ROBOT, ROBOT_CAPS, s.queue, BytesOf(s.toRobot[..n]));
  }

  lemma {:induction false} DoneSent(s: System, initial: Store)
    requires Inv(s, initial) && Calm(s)
    ensures forall p | p in s.queue.done :: p in s.host.sent
  {
    hide Subsequence;
    hide RobotInv;
    hide Inbound;
    HandledWasSent(s);
    SubsequenceAll(s.queue.done, s.host.sent);
  }

  /** What a cycle of a calm run handles was sent. */
  lemma {:induction false} PendingSent(s: System, initial: Store, m: Move)
    requires Inv(s, initial) && m.RobotCycle? && Allowed(s, m) && Calm(Make(s, m))
    ensures forall p | p in s.queue.done + Listen(s, m.bytes).pending :: p in s.host.sent
  {
    hide Make;
    hide Calm;
    hide Inv;
    hide DRun;
    hide ParamsOk;
    hide AllSendable;
    hide Report.Valid;
    MakeKeeps(s, initial, m);
    DoneSent(Make(s, m), initial);
    BytesKeepDone(TO_ROBOT, ROBOT_CAPS, s.queue, BytesOf(s.toRobot[..m.bytes]));
    DoneAfter(s, m.bytes, m.joints, m.report);
  }

  /** When everything sent are drive commands, a cycle handles at most two of them, and nothing else. */
  lemma {:induction false} DriveOnlyPending(s: System, initial: Store, m: Move)
    requires Inv(s, initial) && m.RobotCycle? && Allowed(s, m) && Calm(Make(s, m)) && AllDriveControl(s.host.sent)
    ensures AllDriveControl(Listen(s, m.bytes).pending) && |Listen(s, m.bytes).pending| <= PER_TYPE_MAX
  {
    hide Make;
    hide Calm;
    hide Listen;
    hide ParamsOk;
    hide AllSendable;
    hide Report.Valid;
    hide Good;
    hide Heard;
    hide AllDriveControl;
    PendingSent(s, initial, m);
    InvParts(s, initial);
    hide Inv;
    DrivesAmong(s.queue.done, Listen(s, m.bytes).pending, s.host.sent);
    ListenGood(s, m.bytes);
    AtMostTwo(Listen(s, m.bytes));
  }

  lemma {:induction false} AtMostTwo(q: Deferred.State)
    requires Good(TO_ROBOT, ROBOT_CAPS, q) && AllDriveControl(q.pending)
    ensures |q.pending| <= PER_TYPE_MAX
  {
    CountAll(q.pending, DRIVE_CONTROL);
    assert DRIVE_CONTROL in ROBOT_CAPS;
  }

  lemma {:induction false} DrivesAmong(done: seq<Packet>, ps: seq<Packet>, sent: seq<Packet>)
    requires AllDriveControl(sent) && forall p | p in done + ps :: p in sent
    ensures AllDriveControl(ps)
  {
    forall i | 0 <= i < |ps| ensures ps[i] != [] && ps[i][0] == DRIVE_CONTROL {
      assert (done + ps)[|done| + i] == ps[i];
      assert ps[i] in done + ps;
      var j :| 0 <= j < |sent| && sent[j] == ps[i];
    }
  }

  /** In a calm run of a host that sends nothing but drive commands, no cycle refuses a send. */
  lemma {:induction false} DriveOnlyRun(s: System, initial: Store, ms: seq<Move>)
    requires Inv(s, initial) && Runnable(s, ms) && Calm(After(s, ms)) && AllDriveControl(After(s, ms).host.sent)
    ensures NoneRefused(Rounds(s, ms))
    decreases |ms|
  {
    if ms != [] {
      MoveThenRest(s, ms);
      RoundsCons(s, ms);
      SentGrows(s, ms);
      hide Rounds;
      hide After;
      hide Runnable;
      hide Calm;
      hide Inv;
      hide Round.Valid;
      hide Round.Sends;
      hide Frames;
      hide Make;
      hide AllDriveControl;
      var s1 := Make(s, ms[0]);
      CalmAlong(s1, ms[1..]);
      MakeKeeps(s, initial, ms[0]);
      DriveOnlyRun(s1, initial, ms[1..]);
      hide NoneRefused;
      if ms[0].RobotCycle? {
        DriveOnlyRound(s, initial, ms[0], After(s, ms).host.sent);
        hide Allowed;
        NoneRefusedCons(RoundOf(s, ms[0]), Rounds(s1, ms[1..]));
      }
    }
  }

  lemma {:induction false} NoneRefusedCons(r: Round, rest: seq<Round>)
    requires r.Valid() && AllValid(rest) && |Frames(r.Sends())| <= SIZE_MAX && NoneRefused(rest)
    ensures AllValid([r] + rest) && NoneRefused([r] + rest)
  {
    hide Round.Valid;
    hide Round.Sends;
    hide Frames;
  }

  lemma {:induction false} DriveOnlyRound(s: System, initial: Store, m: Move, sent: seq<Packet>)
    requires Inv(s, initial) && m.RobotCycle? && Allowed(s, m) && Calm(Make(s, m))
    requires s.host.sent <= sent && AllDriveControl(sent)
    ensures RoundOf(s, m).Valid() && |Frames(RoundOf(s, m).Sends())| <= SIZE_MAX
  {
    InvParts(s, initial);
    DrivesBefore(s.host.sent, sent);
    DriveOnlyPending(s, initial, m);
    hide Inv;
    hide Make;
    hide Calm;
    hide Listen;
    hide ParamsOk;
    hide Report.Valid;
    hide Frames;
    DriveOnlyFits(s.robot, Listen(s, m.bytes).pending, m.joints, m.report);
  }

  lemma {:induction false} DrivesBefore(ps: seq<Packet>, sent: seq<Packet>)
    requires ps <= sent && AllDriveControl(sent)
    ensures AllDriveControl(ps)
  {
    forall i | 0 <= i < |ps| ensures ps[i] != [] && ps[i][0] == DRIVE_CONTROL { assert ps[i] == sent[i]; }
  }

  /** The promise of sync to a host that sends nothing but drive commands: in a calm run it always leaves a
      snapshot of one cycle. */
  lemma {:induction false} DriveOnlySnapshot(s0: System, initial: Store, ms: seq<Move>, rest: seq<Move>,
                                             line: seq<uint8>,
                                             n: nat) returns (i: nat)
    requires Start(s0, initial) && Runnable(s0, ms) && Runnable(After(s0, ms), rest) && Runnable(s0, ms + rest)
    requires Calm(After(s0, ms + rest)) && AllDriveControl(After(s0, ms + rest).host.sent)
    requires SyncDone(After(s0, ms).host, line, n) && After(s0, ms + rest).read == After(s0, ms).read + line[..n]
    ensures i < |Rounds(s0, ms + rest)|
    ensures Snapshot(After(s0, ms + rest).host.store, Rounds(s0, ms + rest)[i], Number(s0.robot.globalSeq, i))
  {
    StartInv(s0, initial);
    DriveOnlyRun(s0, initial, ms + rest);
    i := SyncSnapshot(s0, initial, ms, rest, line, n);
  }

  // ---------------------------------------------------------------- the blocking send

  /** The promise of OrazioClient_sendPacket with a timeout, over whole runs: p is sent and flushed, and the reads
      of the client go on between firmware cycles. If they end with Success - the response variable carries type
      and number of p - then the robot ran its handler on that very packet, exactly once, and every parameter
      whose latest echo was not refused is the same on both sides. */
  lemma {:induction false} BlockingSend(s0: System, initial: Store, ms: seq<Move>, p0: Packet, rest: seq<Move>,
                                        timeout: int,
                                        b: seq<uint8>)
    requires Start(s0, initial) && Runnable(s0, ms) && Allowed(After(s0, ms), HostSend(p0))
    requires Runnable(s0, ms + [HostSend(p0), HostFlush] + rest)
    requires Calm(After(s0, ms + [HostSend(p0), HostFlush] + rest))
    requires forall i | 0 <= i < |rest| :: !rest[i].HostSend?
    requires SendStatus(After(s0, ms).host, p0) == Success
    requires After(s0, ms + [HostSend(p0), HostFlush] + rest).read == After(s0, ms).read + b
    requires var h := Protocol.Send(After(s0, ms).host, p0).(ring := []);
             Outcome(h, WithSeq(p0, SendSeq(h.sends)), Received(h, b), timeout, Success, false)
    ensures var e := After(s0, ms + [HostSend(p0), HostFlush] + rest);
            var p := WithSeq(p0, SendSeq(After(s0, ms).host.sends + 1));
            && HandledOnce(e, p)
            && LastAnswered(e) && Shared(e) && LastWritten(e)
  {
    var all := ms + [HostSend(p0), HostFlush] + rest;
    RunnableConcat(s0, ms + [HostSend(p0), HostFlush], rest);
    RunnableConcat(s0, ms, [HostSend(p0), HostFlush]);
    var s, e := After(s0, ms), After(s0, all);
    var s2 := After(s0, ms + [HostSend(p0), HostFlush]);
    SendAndFlush(s, p0);
    hide Start;
    NoSendKeepsSent(s2, rest);
    ReadsInRun(s2, rest);
    hide Runnable;
    hide After;
    hide Calm;
    hide Allowed;
    hide Protocol.Send;
    hide SendStatus;
    hide Run;
    assert e.read[|s2.read|..] == b;
    ReadAllIs(s2.host, b);
    AnsweredByRead(s2.host, WithSeq(p0, SendSeq(s2.host.sends)), b, timeout);
    LastIsSent(s, s2, e, p0);
    EchoBeforeResponse(s0, initial, all);
    HandledOnceOf(s0, initial, all, |s.host.sent|);
  }

  /** The handler ran on p exactly once, and on no other packet of that type and number. */
  ghost predicate HandledOnce(s: System, p: Packet)
    requires |p| >= 4
  {
    && multiset(s.queue.done)[p] == 1
    && forall j | 0 <= j < |s.queue.done| ::
         |s.queue.done[j]| >= 4 && (SameId(s.queue.done[j], p) ==> s.queue.done[j] == p)
  }

  lemma {:induction false} HandledOnceOf(s0: System, initial: Store, ms: seq<Move>, i: nat)
    requires Start(s0, initial) && Runnable(s0, ms) && Calm(After(s0, ms))
    requires var s := After(s0, ms);
             i < |s.host.sent| && |s.host.sent[i]| >= 4 && ResponseFor(s.host.store, s.host.sent[i])
    ensures HandledOnce(After(s0, ms), After(s0, ms).host.sent[i])
  {
    ResponseMeansHandledOnce(s0, initial, ms, i);
  }

  lemma {:induction false} AnsweredByRead(h: Host, p: Packet, b: seq<uint8>, timeout: int)
    requires |p| >= 4 && Outcome(h, p, Received(h, b), timeout, Success, false)
    ensures ResponseFor(Apply(h.store, Received(h, b)), p)
  {
  }

  lemma {:induction false} LastIsSent(s: System, s2: System, e: System, p0: Packet)
    requires |p0| >= 4 && (MayBeSent(p0) ==> Sendable(p0)) && s2.host.sends == s.host.sends + 1
    requires s2.host.sent == s.host.sent + [WithSeq(p0, SendSeq(s2.host.sends))] && e.host.sent == s2.host.sent
    requires MayBeSent(p0) && ResponseFor(e.host.store, WithSeq(p0, SendSeq(s2.host.sends)))
    ensures e.host.sent[|s.host.sent|] == WithSeq(p0, SendSeq(s2.host.sends)) && LastAnswered(e)
  {
  }

  lemma {:induction false} SendAndFlush(s: System, p0: Packet)
    requires Allowed(s, HostSend(p0)) && SendStatus(s.host, p0) == Success
    requires Runnable(s, [HostSend(p0), HostFlush])
    ensures var s2 := After(s, [HostSend(p0), HostFlush]);
            && s2.host == Protocol.Send(s.host, p0).(ring := []) && s2.read == s.read
            && s2.host.sends == s.host.sends + 1 && MayBeSent(p0) && Sendable(p0)
            && s2.host.sent == s.host.sent + [WithSeq(p0, SendSeq(s2.host.sends))]
  {
    hide Frame;
    SendIs(s.host, p0);
    var s1 := Make(s, HostSend(p0));
    assert [HostSend(p0), HostFlush][1..] == [HostFlush];
    OneMove(s1, HostFlush);
  }

  lemma {:induction false} NoSendKeepsSent(s: System, ms: seq<Move>)
    requires Runnable(s, ms) && forall i | 0 <= i < |ms| :: !ms[i].HostSend?
    ensures After(s, ms).host.sent == s.host.sent
    decreases |ms|
  {
    if ms != [] {
      assert !ms[0].HostSend?;
      if ms[0].RobotCycle? { CycleMakes(s, ms[0]); }
      assert Make(s, ms[0]).host.sent == s.host.sent;
      hide Make;
      NoSendKeepsSent(Make(s, ms[0]), ms[1..]);
    }
  }
}
