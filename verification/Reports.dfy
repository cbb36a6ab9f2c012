/** What a communication cycle reports, and what it does not: every status packet that is due is sent once, as the
    subsystem reported it, and no other one; so the variables of the host change exactly for what was due. */
module Reports {
  import opened Words
  import opened Packets
  import opened Transmit
  import opened Messages
  import opened Firmware
  import opened Epochs

  /** How often a packet for variable k occurs. */
  function CountKey(ps: seq<Packet>, k: Key): nat {
    if ps == [] then 0
    else
      var n := |ps| - 1;
      CountKey(ps[..n], k) + if ps[n] != [] && KeyOf(ps[n]) == k then 1 else 0
  }

  lemma {:induction false} Joined(a: seq<Packet>, b: seq<Packet>, k: Key)
    ensures CountKey(a + b, k) == CountKey(a, k) + CountKey(b, k)
    ensures LastOf(a + b, k) == if LastOf(b, k).Some? then LastOf(b, k) else LastOf(a, k)
    decreases |b|
  {
    if b == [] {
      assert a + b == a;
    } else {
      var n := |b| - 1;
      assert (a + b)[..|a| + n] == a + b[..n];
      Joined(a, b[..n], k);
    }
  }

  /** What is sent under a condition. */
  function OnlyIf(due: bool, p: Packet): seq<Packet> { if due then [p] else [] }

  function BothIf(due: bool, p: Packet, q: Packet): seq<Packet> { if due then [p, q] else [] }

  lemma {:induction false} OneIf(due: bool, p: Packet, k: Key)
    requires p != []
    ensures CountKey(OnlyIf(due, p), k) == if due && KeyOf(p) == k then 1 else 0
    ensures LastOf(OnlyIf(due, p), k) == if due && KeyOf(p) == k then Some(p) else None
  {
    assert [p][..0] == [];
  }

  lemma {:induction false} TwoIf(due: bool, p: Packet, q: Packet, k: Key)
    requires p != [] && q != [] && KeyOf(p) != KeyOf(q)
    ensures CountKey(BothIf(due, p, q), k) == if due && (KeyOf(p) == k || KeyOf(q) == k) then 1 else 0
    ensures LastOf(BothIf(due, p, q), k) ==
            if due && KeyOf(p) == k then Some(p) else if due && KeyOf(q) == k then Some(q) else None
  {
    assert [p, q] == [p] + [q];
    Joined([p], [q], k);
    OneIf(due, p, k);
    OneIf(due, q, k);
  }

  /** The variables of the host that hold status, and the string message. */
  predicate Reported(k: Key) { k.typ == 2 || k.typ == 4 || k.typ == 7 || k.typ == 11 || k.typ == 12 }

  /** What the mask enables, and the message if there is one. */
  predicate Due(mask: uint8, r: Report, k: Key) {
    Enabled(mask, r, k) || (r.hasMessage && k == Key(11, 0))
  }

  function ReportOf(r: Report, k: Key): Packet {
    if k.typ == 2 then r.system
    else if k.typ == 4 then (if k.index == 0 then r.joint0 else r.joint1)
    else if k.typ == 7 then r.drive
    else if k.typ == 12 then r.sonar
    else r.message
  }

  lemma {:induction false} PeriodicOnce(mask: uint8, r: Report, k: Key)
    requires r.Valid() && Reported(k)
    ensures CountKey(PeriodicSends(mask, r), k) == if Due(mask, r, k) then 1 else 0
    ensures LastOf(PeriodicSends(mask, r), k) == if Due(mask, r, k) then Some(ReportOf(r, k)) else None
  {
    PeriodicParts(mask, r, k);
    hide Report.Valid;
    hide LastOf;
    hide CountKey;
    hide Flag;
    hide PeriodicSends;
  }

  lemma {:induction false} PeriodicParts(mask: uint8, r: Report, k: Key)
    requires r.Valid() && Reported(k)
    ensures var system, drive := Flag(mask, 1) && k == Key(2, 0), Flag(mask, 4) && k == Key(7, 0);
            var joint0, joint1 := Flag(mask, 2) && k == Key(4, 0), Flag(mask, 2) && k == Key(4, 1);
            var sonar, message := Flag(mask, 8) && r.sonarReady && k == Key(12, 0), r.hasMessage && k == Key(11, 0);
            && CountKey(PeriodicSends(mask, r), k) ==
               (if system then 1 else 0) + (if joint0 || joint1 then 1 else 0) + (if drive then 1 else 0) +
               (if sonar then 1 else 0) + (if message then 1 else 0)
            && LastOf(PeriodicSends(mask, r), k) ==
               if message then Some(r.message) else if sonar then Some(r.sonar) else if drive then Some(r.drive)
               else if joint0 then Some(r.joint0) else if joint1 then Some(r.joint1)
               else if system then Some(r.system) else None
  {
    KeysOfReport(r);
    hide Report.Valid;
    hide KeyOf;
    hide LastOf;
    hide CountKey;
    var a, b := OnlyIf(Flag(mask, 1), r.system), BothIf(Flag(mask, 2), r.joint0, r.joint1);
    var c, d := OnlyIf(Flag(mask, 4), r.drive), OnlyIf(Flag(mask, 8) && r.sonarReady, r.sonar);
    var e, f := OnlyIf(r.hasMessage, r.message), OnlyIf(true, [END_EPOCH, 4, 0, 0]);
    assert PeriodicSends(mask, r) == a + b + c + d + e + f;
    hide PeriodicSends;
    hide OnlyIf;
    hide BothIf;
    hide Flag;
    OneIf(Flag(mask, 1), r.system, k);
    TwoIf(Flag(mask, 2), r.joint0, r.joint1, k);
    OneIf(Flag(mask, 4), r.drive, k);
    OneIf(Flag(mask, 8) && r.sonarReady, r.sonar, k);
    OneIf(r.hasMessage, r.message, k);
    OneIf(true, [END_EPOCH, 4, 0, 0], k);
    SixJoined(a, b, c, d, e, f, k);
  }

  lemma {:induction false} SixJoined(a: seq<Packet>, b: seq<Packet>, c: seq<Packet>, d: seq<Packet>, e: seq<Packet>,
                                     f: seq<Packet>, k: Key)
    ensures CountKey(a + b + c + d + e + f, k) ==
            CountKey(a, k) + CountKey(b, k) + CountKey(c, k) + CountKey(d, k) + CountKey(e, k) + CountKey(f, k)
    ensures LastOf(a + b + c + d + e + f, k) ==
            if LastOf(f, k).Some? then LastOf(f, k) else if LastOf(e, k).Some? then LastOf(e, k)
            else if LastOf(d, k).Some? then LastOf(d, k) else if LastOf(c, k).Some? then LastOf(c, k)
            else if LastOf(b, k).Some? then LastOf(b, k) else LastOf(a, k)
  {
    hide CountKey;
    hide LastOf;
    Joined(a, b, k);
    Joined(a + b, c, k);
    Joined(a + b + c, d, k);
    Joined(a + b + c + d, e, k);
    Joined(a + b + c + d + e, f, k);
  }

  lemma {:induction false} KeysOfReport(r: Report)
    requires r.Valid()
    ensures r.system != [] && r.joint0 != [] && r.joint1 != [] && r.drive != [] && r.sonar != [] && r.message != []
    ensures KeyOf(r.system) == Key(2, 0) && KeyOf(r.joint0) == Key(4, 0) && KeyOf(r.joint1) == Key(4, 1)
    ensures KeyOf(r.drive) == Key(7, 0) && KeyOf(r.sonar) == Key(12, 0) && KeyOf(r.message) == Key(11, 0)
    ensures KeyOf([END_EPOCH, 4, 0, 0]) == Key(10, 0)
  {
  }

  /** The sequence number of the cycle changes neither the variable nor how often it occurs. */
  lemma {:induction false} StampedKeys(ps: seq<Packet>, g: Seq16, k: Key)
    requires AtLeastHeaders(ps)
    ensures CountKey(Stamped(ps, g), k) == CountKey(ps, k)
    ensures LastOf(ps, k).Some? ==> |LastOf(ps, k).value| >= 4
    ensures LastOf(Stamped(ps, g), k) ==
            if LastOf(ps, k).Some? then Some(WithSeq(LastOf(ps, k).value, g)) else None
    decreases |ps|
  {
    if ps != [] {
      var n := |ps| - 1;
      StampedKeys(ps[..n], g, k);
      assert Stamped(ps, g)[..n] == Stamped(ps[..n], g);
    }
  }

  /** Handling a packet sends responses and parameters only. */
  lemma {:induction false} SendsReportNothing(s: Params, g: Seq16, p: Packet, joints: uint8, k: Key)
    requires Sendable(p) && ParamsOk(s) && Reported(k)
    ensures CountKey(SendsOf(s, g, p, joints), k) == 0 && LastOf(SendsOf(s, g, p, joints), k) == None
  {
    EchoFits(s, p, joints);
    HandleOk(s, p, joints);
    hide ParamsOk;
    var e := Handle(s, p, joints);
    var answer := WithSeq(Response(p, e.result), g);
    hide Handle;
    OneIf(true, answer, k);
    if e.echo.Some? {
      var q := WithSeq(e.params.vars[e.echo.value], g);
      OneIf(true, q, k);
      Joined([q], [answer], k);
    } else {
      assert [] + [answer] == [answer];
    }
    hide CountKey;
    hide LastOf;
  }

  lemma {:induction false} AllSendsReportNothing(r: Robot, ps: seq<Packet>, joints: seq<uint8>, k: Key)
    requires AllSendable(ps) && ParamsOk(r.params) && |joints| == |ps| && Reported(k)
    ensures CountKey(AllSendsOf(r, ps, joints), k) == 0 && LastOf(AllSendsOf(r, ps, joints), k) == None
    decreases |ps|
  {
    hide ParamsOk;
    hide HandleOne;
    hide SendsOf;
    if ps != [] {
      var next := HandleOne(r, ps[0], joints[0]);
      HandleOneOk(r, ps[0], joints[0]);
      SendsReportNothing(r.params, r.globalSeq, ps[0], joints[0], k);
      AllSendsReportNothing(next, ps[1..], joints[1..], k);
      Joined(SendsOf(r.params, r.globalSeq, ps[0], joints[0]), AllSendsOf(next, ps[1..], joints[1..]), k);
    }
  }

  /** The mask in force when a cycle reports: that of the parameters after its packets have been handled. */
  function MaskOf(r: Robot, ps: seq<Packet>, joints: seq<uint8>, report: Report): uint8
    requires AllSendable(ps) && ParamsOk(r.params) && |joints| == |ps| && report.Valid()
  {
    Mask(Cycle(r, ps, joints, report).0.params)
  }

  /** A cycle attempts to send a status or message if and only if it is due, then exactly once, with what was reported
      and the number of the cycle - whatever packets it handles before. */
  lemma {:induction false} SentIffDue(r: Robot, ps: seq<Packet>, joints: seq<uint8>, report: Report, k: Key)
    requires AllSendable(ps) && ParamsOk(r.params) && |joints| == |ps| && report.Valid() && Reported(k)
    ensures var a, due := Attempts(r, ps, joints, report), Due(MaskOf(r, ps, joints, report), report, k);
            && CountKey(a, k) == (if due then 1 else 0)
            && |ReportOf(report, k)| >= 4
            && LastOf(a, k) == if due then Some(WithSeq(ReportOf(report, k), NextSeq(r.globalSeq))) else None
  {
    hide HandleAll;
    hide ParamsOk;
    hide Report.Valid;
    hide Sendable;
    var r0 := r.(globalSeq := NextSeq(r.globalSeq));
    var mask := MaskOf(r, ps, joints, report);
    AttemptsAre(r, ps, joints, report);
    hide Attempts;
    hide MaskOf;
    ReportHasHeader(report, k);
    StampedReport(mask, report, r0.globalSeq, k);
    hide Due;
    hide CountKey;
    hide LastOf;
    AllSendsReportNothing(r0, ps, joints, k);
    Joined(AllSendsOf(r0, ps, joints), Stamped(PeriodicSends(mask, report), r0.globalSeq), k);
  }

  lemma {:induction false} StampedReport(mask: uint8, r: Report, g: Seq16, k: Key)
    requires r.Valid() && Reported(k)
    ensures AtLeastHeaders(PeriodicSends(mask, r)) && |ReportOf(r, k)| >= 4
    ensures var a := Stamped(PeriodicSends(mask, r), g);
            && CountKey(a, k) == (if Due(mask, r, k) then 1 else 0)
            && LastOf(a, k) == if Due(mask, r, k) then Some(WithSeq(ReportOf(r, k), g)) else None
  {
    PeriodicPlain(mask, r);
    PeriodicOnce(mask, r, k);
    ReportHasHeader(r, k);
    hide PeriodicSends;
    hide Due;
    hide CountKey;
    hide LastOf;
    StampedKeys(PeriodicSends(mask, r), g, k);
  }

  lemma {:induction false} ReportHasHeader(r: Report, k: Key)
    requires r.Valid()
    ensures |ReportOf(r, k)| >= 4
  {
  }

  lemma {:induction false} AttemptsAre(r: Robot, ps: seq<Packet>, joints: seq<uint8>, report: Report)
    requires AllSendable(ps) && ParamsOk(r.params) && |joints| == |ps| && report.Valid()
    ensures var r0, mask := r.(globalSeq := NextSeq(r.globalSeq)), MaskOf(r, ps, joints, report);
            && AtLeastHeaders(PeriodicSends(mask, report))
            && Attempts(r, ps, joints, report) ==
               AllSendsOf(r0, ps, joints) + Stamped(PeriodicSends(mask, report), r0.globalSeq)
  {
    var r0 := r.(globalSeq := NextSeq(r.globalSeq));
    var r1 := HandleAll(r0, ps, joints);
    HandleAllOk(r0, ps, joints);
    var mask := Mask(r1.params);
    PeriodicPlain(mask, report);
    EmitAllSends(r1, PeriodicSends(mask, report));
    assert MaskOf(r, ps, joints, report) == mask;
  }

  /** What the host has after it received the epoch of a cycle that refused nothing: for a status that was due, the
      report of the cycle with its number; for any other, what it had before. */
  lemma {:induction false} ReceivedIffDue(r: Robot, ps: seq<Packet>, joints: seq<uint8>, report: Report, store: Store,
                                          k: Key)
    requires AllSendable(ps) && ParamsOk(r.params) && |joints| == |ps| && report.Valid() && r.ring == []
    requires |Frames(Attempts(r, ps, joints, report))| <= SIZE_MAX && Reported(k)
    ensures var a := Attempts(r, ps, joints, report);
            && Cycle(r, ps, joints, report).0.sent == r.sent + a
            && |ReportOf(report, k)| >= 4
            && if Due(MaskOf(r, ps, joints, report), report, k)
               then k in Apply(store, a) && Apply(store, a)[k] == WithSeq(ReportOf(report, k), NextSeq(r.globalSeq))
               else (k in Apply(store, a) <==> k in store) && (k in store ==> Apply(store, a)[k] == store[k])
  {
    SentIffDue(r, ps, joints, report, k);
    NothingRefusedIff(r, ps, joints, report);
    CycleIsEpoch(r, ps, joints, report);
    hide ParamsOk;
    hide MaskOf;
    hide Due;
    ApplyIsLast(store, Attempts(r, ps, joints, report), k);
  }
}
