/** Epochs: all packets of a communication cycle carry its sequence number, the EndEpoch packet closes
    them, and a host that waits for it has a consistent snapshot. When does a cycle fit the ring? */
module Epochs {
  import opened Words
  import opened Packets
  import opened Transmit
  import opened Deferred
  import opened Messages
  import opened Firmware

  // ---------------------------------------------------------------- capacity

  /** No send of a cycle is refused if and only if the frames of all its attempts fit the ring. */
  lemma {:induction false} NothingRefusedIff(r: Robot, ps: seq<Packet>, joints: seq<uint8>, report: Report)
    requires AllSendable(ps) && ParamsOk(r.params) && |joints| == |ps| && report.Valid() && r.ring == []
    ensures Cycle(r, ps, joints, report).0.sent == r.sent + Attempts(r, ps, joints, report) <==>
            |Frames(Attempts(r, ps, joints, report))| <= SIZE_MAX
  {
    var a := Attempts(r, ps, joints, report);
    CycleSends(r, ps, joints, report);
    AllAcceptedIffTheyFit([], a);
    if r.sent + Accepted([], a) == r.sent + a {
      assert (r.sent + a)[|r.sent|..] == a && (r.sent + Accepted([], a))[|r.sent|..] == Accepted([], a);
    }
  }

  ghost predicate AllDriveControl(ps: seq<Packet>) {
    forall i | 0 <= i < |ps| :: ps[i] != [] && ps[i][0] == DRIVE_CONTROL
  }

  /** A drive control packet is answered with one response of 11 bytes. */
  lemma {:induction false} DriveControlSends(r: Robot, ps: seq<Packet>, joints: seq<uint8>)
    requires AllSendable(ps) && ParamsOk(r.params) && |joints| == |ps| && AllDriveControl(ps)
    ensures |Frames(AllSendsOf(r, ps, joints))| == 11 * |ps|
    decreases |ps|
  {
    hide ParamsOk;
    if ps != [] {
      var next := HandleOne(r, ps[0], joints[0]);
      HandleOneOk(r, ps[0], joints[0]);
      DriveControlSends(next, ps[1..], joints[1..]);
      var first := SendsOf(r.params, r.globalSeq, ps[0], joints[0]);
      FramesConcat(first, AllSendsOf(next, ps[1..], joints[1..]));
      assert first == [WithSeq(Response(ps[0], SUCCESS), r.globalSeq)];
      FramesSnoc([], first[0]);
      assert [] + first == first;
    }
  }

  /** The length of the frames of some packets. */
  function Lengths(ps: seq<Packet>): nat {
    if ps == [] then 0 else |ps[0]| + 3 + Lengths(ps[1..])
  }

  lemma {:induction false} LengthsConcat(a: seq<Packet>, b: seq<Packet>)
    ensures Lengths(a + b) == Lengths(a) + Lengths(b)
    decreases |a|
  {
    if a == [] {
      assert a + b == b;
    } else {
      LengthsConcat(a[1..], b);
      assert (a + b)[1..] == a[1..] + b;
    }
  }

  lemma {:induction false} StampedLength(ps: seq<Packet>, g: Seq16)
    requires AtLeastHeaders(ps)
    ensures |Frames(Stamped(ps, g))| == Lengths(ps)
    decreases |ps|
  {
    if ps != [] {
      StampedLength(ps[1..], g);
      assert Stamped(ps, g)[1..] == Stamped(ps[1..], g);
    }
  }

  /** The periodic packets, the message and the end of the epoch need at most 229 bytes. */
  lemma {:induction false} PeriodicLength(mask: uint8, r: Report)
    requires r.Valid()
    ensures Lengths(PeriodicSends(mask, r)) <= 229
  {
    ReportLengths(r);
    hide Report.Valid;
    hide Lengths;
    var a := if Flag(mask, 1) then [r.system] else [];
    var b := if Flag(mask, 2) then [r.joint0, r.joint1] else [];
    var c := if Flag(mask, 4) then [r.drive] else [];
    var d := if Flag(mask, 8) && r.sonarReady then [r.sonar] else [];
    var e := if r.hasMessage then [r.message] else [];
    var f := [[END_EPOCH, 4, 0, 0]];
    hide Flag;
    SixLengths(a, b, c, d, e, f);
    ShortLength(a);
    ShortLength(c);
    ShortLength(d);
    ShortLength(e);
    ShortLength(f);
    if b != [] { PairLength(r.joint0, r.joint1); }
  }

  lemma {:induction false} PairLength(p: Packet, q: Packet)
    ensures Lengths([p, q]) == |p| + |q| + 6
  {
    assert [p, q][1..] == [q];
    ShortLength([q]);
  }

  lemma {:induction false} ReportLengths(r: Report)
    requires r.Valid()
    ensures |r.system| == 27 && |r.joint0| == |r.joint1| == 16 && |r.drive| == 41 && |r.sonar| == 20
    ensures |r.message| == 84
  {
  }

  lemma {:induction false} SixLengths(a: seq<Packet>, b: seq<Packet>, c: seq<Packet>, d: seq<Packet>, e: seq<Packet>,
                                      f: seq<Packet>)
    ensures Lengths(a + b + c + d + e + f) ==
            Lengths(a) + Lengths(b) + Lengths(c) + Lengths(d) + Lengths(e) + Lengths(f)
  {
    hide Lengths;
    LengthsConcat(a + b + c + d + e, f);
    LengthsConcat(a + b + c + d, e);
    LengthsConcat(a + b + c, d);
    LengthsConcat(a + b, c);
    LengthsConcat(a, b);
  }

  lemma {:induction false} ShortLength(ps: seq<Packet>)
    requires |ps| <= 1
    ensures Lengths(ps) == if ps == [] then 0 else |ps[0]| + 3
  {
  }

  /** A cycle that handles at most two drive control packets refuses nothing. */
  lemma {:induction false} DriveOnlyFits(r: Robot, ps: seq<Packet>, joints: seq<uint8>, report: Report)
    requires AllSendable(ps) && ParamsOk(r.params) && |joints| == |ps| && report.Valid() && r.ring == []
    requires AllDriveControl(ps) && |ps| <= PER_TYPE_MAX
    ensures |Frames(Attempts(r, ps, joints, report))| <= 251
    ensures Cycle(r, ps, joints, report).0.sent == r.sent + Attempts(r, ps, joints, report)
  {
    var r0 := r.(globalSeq := NextSeq(r.globalSeq));
    var r1 := HandleAll(r0, ps, joints);
    HandleAllOk(r0, ps, joints);
    PeriodicPlain(Mask(r1.params), report);
    var sends := PeriodicSends(Mask(r1.params), report);
    DriveControlSends(r0, ps, joints);
    StampedLength(sends, r0.globalSeq);
    PeriodicLength(Mask(r1.params), report);
    FramesConcat(AllSendsOf(r0, ps, joints), Stamped(sends, r0.globalSeq));
    NothingRefusedIff(r, ps, joints, report);
  }

  /** Packets of one type only are as many as the count of the type. */
  lemma {:induction false} CountAll(ps: seq<Packet>, t: uint8)
    requires forall i | 0 <= i < |ps| :: ps[i] != [] && ps[i][0] == t
    ensures Count(ps, t) == |ps|
    decreases |ps|
  {
    if ps != [] { CountAll(ps[..|ps| - 1], t); }
  }

  /** In any run of the deferred handler the waiting packets, when they are all drive control packets,
      are at most two: so a run that receives only those never has a send refused. */
  lemma {:induction false} DriveOnlyNeverRefuses(es: seq<Event>, r: Robot, joints: seq<uint8>, report: Report)
    requires AllDriveControl(DRun(TO_ROBOT, ROBOT_CAPS, Fresh, es).pending)
    requires AllSendable(DRun(TO_ROBOT, ROBOT_CAPS, Fresh, es).pending) && ParamsOk(r.params) && r.ring == []
    requires |joints| == |DRun(TO_ROBOT, ROBOT_CAPS, Fresh, es).pending| && report.Valid()
    ensures var ps := DRun(TO_ROBOT, ROBOT_CAPS, Fresh, es).pending;
            Cycle(r, ps, joints, report).0.sent == r.sent + Attempts(r, ps, joints, report)
  {
    hide Frames;
    hide Cycle;
    hide Attempts;
    hide ParamsOk;
    var ps := DRun(TO_ROBOT, ROBOT_CAPS, Fresh, es).pending;
    RunGood(TO_ROBOT, ROBOT_CAPS, Fresh, es);
    CountAll(ps, DRIVE_CONTROL);
    assert DRIVE_CONTROL in ROBOT_CAPS;
    DriveOnlyFits(r, ps, joints, report);
  }

  // ---------------------------------------------------------------- epochs

  ghost predicate HaveSeq(ps: seq<Packet>, g: Seq16) {
    forall i | 0 <= i < |ps| :: |ps[i]| >= 4 && SeqOf(ps[i]) == g
  }

  /** The packets of one epoch: one sequence number, and an EndEpoch packet at the end only. */
  ghost predicate IsEpoch(ps: seq<Packet>, g: Seq16) {
    && ps != [] && HaveSeq(ps, g) && ps[|ps| - 1][0] == END_EPOCH
    && (forall i | 0 <= i < |ps| - 1 :: ps[i][0] != END_EPOCH)
  }

  lemma {:induction false} AllSendsSeq(r: Robot, ps: seq<Packet>, joints: seq<uint8>)
    requires AllSendable(ps) && ParamsOk(r.params) && |joints| == |ps|
    ensures HaveSeq(AllSendsOf(r, ps, joints), r.globalSeq)
    ensures forall i | 0 <= i < |AllSendsOf(r, ps, joints)| :: AllSendsOf(r, ps, joints)[i][0] != END_EPOCH
    decreases |ps|
  {
    hide ParamsOk;
    if ps != [] {
      var next := HandleOne(r, ps[0], joints[0]);
      HandleOneOk(r, ps[0], joints[0]);
      HandleOneSends(r, ps[0], joints[0]);
      SendsSeq(r.params, r.globalSeq, ps[0], joints[0]);
      AllSendsSeq(next, ps[1..], joints[1..]);
    }
  }

  lemma {:induction false} SendsSeq(s: Params, g: Seq16, p: Packet, joints: uint8)
    requires Sendable(p) && ParamsOk(s)
    ensures HaveSeq(SendsOf(s, g, p, joints), g)
    ensures forall i | 0 <= i < |SendsOf(s, g, p, joints)| :: SendsOf(s, g, p, joints)[i][0] != END_EPOCH
  {
    EchoFits(s, p, joints);
    HandleOk(s, p, joints);
  }

  lemma {:induction false} PeriodicEnds(mask: uint8, r: Report)
    requires r.Valid()
    ensures var ps := PeriodicSends(mask, r);
            && ps != [] && ps[|ps| - 1][0] == END_EPOCH
            && forall i | 0 <= i < |ps| - 1 :: ps[i] != [] && ps[i][0] != END_EPOCH
  {
    hide Flag;
  }

  /** A cycle that refuses nothing sends an epoch. */
  lemma {:induction false} CycleIsEpoch(r: Robot, ps: seq<Packet>, joints: seq<uint8>, report: Report)
    requires AllSendable(ps) && ParamsOk(r.params) && |joints| == |ps| && report.Valid() && r.ring == []
    ensures IsEpoch(Attempts(r, ps, joints, report), NextSeq(r.globalSeq))
  {
    var r0 := r.(globalSeq := NextSeq(r.globalSeq));
    var r1 := HandleAll(r0, ps, joints);
    HandleAllOk(r0, ps, joints);
    PeriodicPlain(Mask(r1.params), report);
    PeriodicEnds(Mask(r1.params), report);
    AllSendsSeq(r0, ps, joints);
    hide PeriodicSends;
    hide ParamsOk;
    var a, b := AllSendsOf(r0, ps, joints), Stamped(PeriodicSends(Mask(r1.params), report), r0.globalSeq);
    JoinEpoch(a, b, r0.globalSeq);
  }

  lemma {:induction false} JoinEpoch(a: seq<Packet>, b: seq<Packet>, g: Seq16)
    requires HaveSeq(a, g) && IsEpoch(b, g) && forall i | 0 <= i < |a| :: a[i][0] != END_EPOCH
    ensures IsEpoch(a + b, g)
  {
  }

  // ---------------------------------------------------------------- the host's view

  /** The host copies every packet it receives into the variable of its type and index. */
  function Apply(store: Store, ps: seq<Packet>): Store {
    if ps == [] then store
    else
      var before, p := Apply(store, ps[..|ps| - 1]), ps[|ps| - 1];
      if p == [] then before else before[KeyOf(p) := p]
  }

  ghost predicate NoneEmpty(ps: seq<Packet>) {
    forall i | 0 <= i < |ps| :: ps[i] != []
  }

  lemma {:induction false} ApplySnoc(store: Store, ps: seq<Packet>, p: Packet)
    requires p != []
    ensures Apply(store, ps + [p]) == Apply(store, ps)[KeyOf(p) := p]
  {
    assert (ps + [p])[..|ps|] == ps;
  }

  lemma {:induction false} ApplyConcat(store: Store, a: seq<Packet>, b: seq<Packet>)
    ensures Apply(store, a + b) == Apply(Apply(store, a), b)
    decreases |b|
  {
    if b == [] {
      assert a + b == a;
    } else {
      var n := |b| - 1;
      ApplyConcat(store, a, b[..n]);
      assert (a + b)[..|a| + n] == a + b[..n];
    }
  }

  /** A variable holds the last packet received for it. */
  lemma {:induction false} ApplyIsLast(store: Store, ps: seq<Packet>, k: Key)
    requires NoneEmpty(ps)
    ensures LastOf(ps, k).Some? ==> k in Apply(store, ps) && Apply(store, ps)[k] == LastOf(ps, k).value
    ensures LastOf(ps, k) == None ==> (k in Apply(store, ps) <==> k in store)
    ensures LastOf(ps, k) == None && k in store ==> Apply(store, ps)[k] == store[k]
    decreases |ps|
  {
    if ps != [] { ApplyIsLast(store, ps[..|ps| - 1], k); }
  }

  const EPOCH_KEY := Key(END_EPOCH, 0)

  /** end_epoch.seq of the host. */
  predicate HasEpoch(s: Store) {
    EPOCH_KEY in s && |s[EPOCH_KEY]| >= 4
  }

  function EpochSeq(s: Store): Seq16
    requires HasEpoch(s)
  {
    SeqOf(s[EPOCH_KEY])
  }

  lemma {:induction false} NoEpochPacket(store: Store, ps: seq<Packet>)
    requires NoneEmpty(ps) && forall i | 0 <= i < |ps| :: ps[i][0] != END_EPOCH
    requires HasEpoch(store)
    ensures HasEpoch(Apply(store, ps)) && EpochSeq(Apply(store, ps)) == EpochSeq(store)
    decreases |ps|
  {
    if ps != [] { NoEpochPacket(store, ps[..|ps| - 1]); }
  }

  /** Every packet of an epoch that has been received is in its variable with the epoch's number. */
  lemma {:induction false} SnapshotKey(store: Store, ps: seq<Packet>, g: Seq16, i: nat)
    requires HaveSeq(ps, g) && NoneEmpty(ps) && i < |ps|
    ensures var s := Apply(store, ps); KeyOf(ps[i]) in s && |s[KeyOf(ps[i])]| >= 4 && SeqOf(s[KeyOf(ps[i])]) == g
    decreases |ps|
  {
    var n := |ps| - 1;
    if i < n { SnapshotKey(store, ps[..n], g, i); }
  }

  /** The variables show epoch g: its EndEpoch packet has come, and variable k is of the same epoch. */
  predicate Shows(s: Store, k: Key, g: Seq16) {
    HasEpoch(s) && EpochSeq(s) == g && k in s && |s[k]| >= 4 && SeqOf(s[k]) == g
  }

  /** The loop of OrazioClient_sync keeps reading through all proper prefixes of ps: end_epoch.seq stays. */
  ghost predicate SyncWaits(store: Store, ps: seq<Packet>)
    requires HasEpoch(store)
  {
    forall n | 0 <= n < |ps| :: HasEpoch(Apply(store, ps[..n])) && EpochSeq(Apply(store, ps[..n])) == EpochSeq(store)
  }

  /** OrazioClient_sync reads packets until end_epoch.seq changes. Starting anywhere in an epoch whose
      number the host has not seen, it reads exactly to the end of that epoch. */
  lemma {:induction false} SyncReadsToEnd(store: Store, ps: seq<Packet>, g: Seq16)
    requires IsEpoch(ps, g) && HasEpoch(store) && EpochSeq(store) != g && NoneEmpty(ps)
    ensures HasEpoch(Apply(store, ps)) && EpochSeq(Apply(store, ps)) == g
    ensures SyncWaits(store, ps)
  {
    forall n | 0 <= n < |ps|
      ensures HasEpoch(Apply(store, ps[..n])) && EpochSeq(Apply(store, ps[..n])) == EpochSeq(store)
    {
      NoEpochPacket(store, ps[..n]);
    }
  }

  /** The status packets that the mask enables in this cycle. */
  predicate Enabled(mask: uint8, r: Report, k: Key) {
    || (Flag(mask, 1) && k == Key(SYSTEM_STATUS, 0))
    || (Flag(mask, 2) && (k == Key(JOINT_STATUS, 0) || k == Key(JOINT_STATUS, 1)))
    || (Flag(mask, 4) && k == Key(DRIVE_STATUS, 0))
    || (Flag(mask, 8) && r.sonarReady && k == Key(SONAR_STATUS, 0))
  }

  lemma {:induction false} EnabledIsSent(mask: uint8, r: Report, k: Key) returns (i: nat)
    requires r.Valid() && Enabled(mask, r, k)
    ensures i < |PeriodicSends(mask, r)| && PeriodicSends(mask, r)[i] != [] && KeyOf(PeriodicSends(mask, r)[i]) == k
  {
    hide Flag;
    var a := if Flag(mask, 1) then [r.system] else [];
    var b := if Flag(mask, 2) then [r.joint0, r.joint1] else [];
    var c := if Flag(mask, 4) then [r.drive] else [];
    i := if k.typ == SYSTEM_STATUS then 0
         else if k.typ == JOINT_STATUS then |a| + k.index as nat
         else if k.typ == DRIVE_STATUS then |a + b|
         else |a + b + c|;
  }

  /** Epoch snapshot. A cycle refuses nothing, and the host, holding the previous epoch or a part of this
      one, receives what it sends. Then sync returns exactly when the whole epoch has been received, and
      every status variable enabled in that cycle has the number of the EndEpoch packet just received,
      also when the sequence numbers wrap around. */
  lemma {:induction false} EpochSnapshot(r: Robot, ps: seq<Packet>, joints: seq<uint8>, report: Report, store: Store,
                                         k: Key)
    requires AllSendable(ps) && ParamsOk(r.params) && |joints| == |ps| && report.Valid() && r.ring == []
    requires |Frames(Attempts(r, ps, joints, report))| <= SIZE_MAX
    requires HasEpoch(store) && EpochSeq(store) == r.globalSeq
    requires Enabled(Mask(Cycle(r, ps, joints, report).0.params), report, k)
    ensures var a := Attempts(r, ps, joints, report);
            && Cycle(r, ps, joints, report).0.sent == r.sent + a
            && SyncWaits(store, a) && Shows(Apply(store, a), k, NextSeq(r.globalSeq))
  {
    var a, g := Attempts(r, ps, joints, report), NextSeq(r.globalSeq);
    CycleIsEpoch(r, ps, joints, report);
    NothingRefusedIff(r, ps, joints, report);
    hide ParamsOk;
    SyncReadsToEnd(store, a, g);
    var i := EnabledIsAttempted(r, ps, joints, report, k);
    SnapshotKey(store, a, g, i);
  }

  lemma {:induction false} EnabledIsAttempted(r: Robot, ps: seq<Packet>, joints: seq<uint8>, report: Report,
                                              k: Key) returns (i: nat)
    requires AllSendable(ps) && ParamsOk(r.params) && |joints| == |ps| && report.Valid()
    requires Enabled(Mask(Cycle(r, ps, joints, report).0.params), report, k)
    ensures i < |Attempts(r, ps, joints, report)| && Attempts(r, ps, joints, report)[i] != []
    ensures KeyOf(Attempts(r, ps, joints, report)[i]) == k
  {
    var r0 := r.(globalSeq := NextSeq(r.globalSeq));
    var r1 := HandleAll(r0, ps, joints);
    HandleAllOk(r0, ps, joints);
    var sends := PeriodicSends(Mask(r1.params), report);
    PeriodicPlain(Mask(r1.params), report);
    EmitAllSends(r1, sends);
    var j := EnabledIsSent(Mask(r1.params), report, k);
    hide PeriodicSends;
    hide ParamsOk;
    i := |AllSendsOf(r0, ps, joints)| + j;
    assert Attempts(r, ps, joints, report)[i] == Stamped(sends, r0.globalSeq)[j];
    assert sends[j][0] == WithSeq(sends[j], r0.globalSeq)[0];
  }
}
