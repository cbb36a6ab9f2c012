/** orazio_comm.c on values: what handling a packet does to the parameters and which packets it sends,
    and the communication cycle that ends an epoch. */
module Firmware {
  import opened Words
  import opened Packets
  import opened Receiver
  import opened Transmit
  import opened Messages

  const SUCCESS: uint8 := 0
  const GENERIC_ERROR: uint8 := 129   // -127 in a byte

  /** ResponsePacket for a packet: its type and sequence number, and the result. */
  function Response(p: Packet, result: uint8): (r: Packet)
    requires |p| >= 4
    ensures Answers(r, p)
  {
    [RESPONSE, 8, 0, 0, p[0], p[2], p[3], result]
  }

  /** r is the response to a packet with the type and sequence number of p. */
  predicate Answers(r: Packet, p: Packet)
    requires |p| >= 4
  {
    |r| == 8 && r[0] == RESPONSE && r[4] == p[0] && r[5] == p[2] && r[6] == p[3]
  }

  predicate SameId(p: Packet, q: Packet)
    requires |p| >= 4 && |q| >= 4
  {
    p[0] == q[0] && p[2] == q[2] && p[3] == q[3]
  }

  /** A response answers exactly the packets with the type and number of the one it was made for, and carries the
      result. */
  lemma {:induction false} ResponseAnswersIff(p: Packet, q: Packet, result: uint8)
    requires |p| >= 4 && |q| >= 4
    ensures Answers(Response(p, result), q) <==> SameId(p, q)
    ensures Fitting(TO_HOST, Response(p, result)) && Response(p, result)[7] == result
  {
  }

  /** The variables of the firmware and their copy in the eeprom. */
  datatype Params = Params(vars: Store, eeprom: Store)

  /** What handling a packet does: new variables, the variable sent back if any, the result. */
  datatype Effect = Effect(params: Params, echo: Option<Key>, result: uint8)

  /** Orazio_handlePacket. `joints` is what Orazio_jointsInit answers. */
  function HandlePacket(s: Params, p: Packet, joints: uint8): Effect
    requires Sendable(p) && p[0] != PARAM_CONTROL
  {
    if Indexed(p[0]) && p[4] >= NUM_JOINTS then Effect(s, None, GENERIC_ERROR)
    else
      Effect(s.(vars := s.vars[KeyOf(p) := p]),
             if IsParam(p[0]) then Some(KeyOf(p)) else None,
             if p[0] == JOINT_PARAM then joints else SUCCESS)
  }

  /** The variable that a parameter control packet is about. */
  function Target(p: Packet): (k: Option<Key>)
    requires Sendable(p) && p[0] == PARAM_CONTROL
    ensures k.Some? ==> ParamKey(k.value)
  {
    if p[5] == 0 then Some(Key(SYSTEM_PARAM, 0))
    else if p[5] == 1 then Some(Key(JOINT_PARAM, p[6]))
    else if p[5] == 2 then Some(Key(DRIVE_PARAM, 0))
    else if p[5] == 3 then Some(Key(SONAR_PARAM, 0))
    else None
  }

  /** Orazio_handleParamCtl: send, load and send, or save and send. An unknown parameter type with a
      plain request is answered with success: the second switch overwrites the error of the first. */
  function HandleParamCtl(s: Params, p: Packet): Effect
    requires Sendable(p) && p[0] == PARAM_CONTROL && ParamsOk(s)
  {
    match Target(p)
    case None => Effect(s, None, if p[4] == 0 then SUCCESS else GENERIC_ERROR)
    case Some(k) =>
      if p[4] == 0 then Effect(s, Some(k), SUCCESS)
      else if p[4] == 1 then Effect(s.(vars := s.vars[k := s.eeprom[k]]), Some(k), SUCCESS)
      else if p[4] == 2 then Effect(s.(eeprom := s.eeprom[k := s.vars[k]]), Some(k), SUCCESS)
      else Effect(s, Some(k), GENERIC_ERROR)
  }

  predicate ParamKey(k: Key) {
    if k.typ == JOINT_PARAM then k.index < NUM_JOINTS else IsParam(k.typ) && k.index == 0
  }

  /** A packet that can stand in variable k. */
  predicate Holds(k: Key, p: Packet) {
    Fitting(TO_HOST, p) && |p| >= 5 && KeyOf(p) == k
  }

  /** All parameter variables and their saved copies are packets the host expects. */
  ghost predicate ParamsOk(s: Params) {
    forall k | ParamKey(k) :: k in s.vars && k in s.eeprom && Holds(k, s.vars[k]) && Holds(k, s.eeprom[k])
  }

  function Handle(s: Params, p: Packet, joints: uint8): Effect
    requires Sendable(p) && ParamsOk(s)
  {
    if p[0] == PARAM_CONTROL then HandleParamCtl(s, p) else HandlePacket(s, p, joints)
  }

  lemma {:induction false} HandleOk(s: Params, p: Packet, joints: uint8)
    requires Sendable(p) && ParamsOk(s)
    ensures ParamsOk(Handle(s, p, joints).params)
    ensures Handle(s, p, joints).echo.Some? ==> ParamKey(Handle(s, p, joints).echo.value)
  {
    if p[0] != PARAM_CONTROL && IsParam(p[0]) && (Indexed(p[0]) ==> p[4] < NUM_JOINTS) {
      assert Holds(KeyOf(p), p);
    }
  }

  // ---------------------------------------------------------------- sending

  /** The firmware during a communication cycle. `sent` is the history of accepted packets, `echoed`
      holds the parameters whose latest copy was accepted for sending. */
  datatype Robot = Robot(params: Params, globalSeq: Seq16, ring: seq<uint8>, sent: seq<Packet>, echoed: set<Key>)

  /** PacketHandler_sendPacket on the ring of the firmware. */
  function Post(r: Robot, q: Packet): Robot {
    if Fits(r.ring, q) then r.(ring := r.ring + Frame(q), sent := r.sent + [q]) else r
  }

  /** Orazio_sendPacket: the packet gets the sequence number of the cycle. */
  function Emit(r: Robot, p: Packet): Robot
    requires |p| >= 4
  {
    Post(r, WithSeq(p, r.globalSeq))
  }

  /** Orazio_sendPacket of a parameter variable, which keeps the sequence number. */
  function EmitParam(r: Robot, k: Key): Robot
    requires k in r.params.vars && |r.params.vars[k]| >= 4
  {
    var q := WithSeq(r.params.vars[k], r.globalSeq);
    Post(r, q).(params := r.params.(vars := r.params.vars[k := q]),
                echoed := if Fits(r.ring, q) then r.echoed + {k} else r.echoed - {k})
  }

  /** One deferred action: the effect, then the echo, then the response. */
  function HandleOne(r: Robot, p: Packet, joints: uint8): Robot
    requires Sendable(p) && ParamsOk(r.params)
  {
    var e := Handle(r.params, p, joints);
    HandleOk(r.params, p, joints);
    var r1 := r.(params := e.params);
    var r2 := if e.echo.Some? then EmitParam(r1, e.echo.value) else r1;
    Emit(r2, Response(p, e.result))
  }

  ghost predicate AllSendable(ps: seq<Packet>) {
    forall i | 0 <= i < |ps| :: Sendable(ps[i])
  }

  /** No two packets share type and sequence number. */
  ghost predicate DistinctIds(ps: seq<Packet>)
    requires AllSendable(ps)
  {
    forall i, j | 0 <= i < j < |ps| :: !SameId(ps[i], ps[j])
  }

  /** Every response that was sent answers a packet that was handled. */
  ghost predicate Answered(sent: seq<Packet>, done: seq<Packet>)
    requires AllSendable(done)
  {
    forall i | 0 <= i < |sent| ::
      |sent[i]| >= 4 && (sent[i][0] == RESPONSE ==> exists j :: 0 <= j < |done| && Answers(sent[i], done[j]))
  }

  /** After the response to the packet handled last, no parameter was sent. */
  ghost predicate LastQuiet(sent: seq<Packet>, done: seq<Packet>)
    requires AllSendable(done)
  {
    done != [] ==>
      forall i, j | 0 <= i < j < |sent| && Answers(sent[i], done[|done| - 1]) :: sent[j] != [] && !IsParam(sent[j][0])
  }

  /** The variable that p was to set holds p, but for the sequence number. */
  predicate Written(s: Params, p: Packet)
    requires |p| >= 5
  {
    IsParam(p[0]) && (p[0] == JOINT_PARAM ==> p[4] < NUM_JOINTS) ==> KeyOf(p) in s.vars && SameBody(s.vars[KeyOf(p)], p)
  }

  /** A parameter whose latest copy was accepted for sending is the last one sent. */
  ghost predicate EchoesCurrent(r: Robot) {
    forall k | k in r.echoed :: ParamKey(k) && k in r.params.vars && LastOf(r.sent, k) == Some(r.params.vars[k])
  }

  ghost predicate AllFitting(ps: seq<Packet>) {
    forall i | 0 <= i < |ps| :: Fitting(TO_HOST, ps[i])
  }

  /** What every step of the firmware keeps; `done` are the packets handled so far. */
  ghost predicate RobotInv(r: Robot, done: seq<Packet>) {
    && ParamsOk(r.params) && AllFitting(r.sent) && AllSendable(done)
    && Answered(r.sent, done) && LastQuiet(r.sent, done) && EchoesCurrent(r)
    && (done != [] ==> Written(r.params, done[|done| - 1]))
  }

  lemma {:induction false} AnsweredSnoc(sent: seq<Packet>, done: seq<Packet>, q: Packet)
    requires AllSendable(done) && Answered(sent, done) && |q| >= 4
    requires q[0] == RESPONSE ==> exists j :: 0 <= j < |done| && Answers(q, done[j])
    ensures Answered(sent + [q], done)
  {
  }

  lemma {:induction false} AnsweredMore(sent: seq<Packet>, done: seq<Packet>, p: Packet)
    requires AllSendable(done + [p]) && AllSendable(done) && Answered(sent, done)
    ensures Answered(sent, done + [p])
  {
    forall i | 0 <= i < |sent| && sent[i][0] == RESPONSE
      ensures exists j :: 0 <= j < |done + [p]| && Answers(sent[i], (done + [p])[j])
    {
      var j :| 0 <= j < |done| && Answers(sent[i], done[j]);
      assert (done + [p])[j] == done[j];
    }
  }

  /** Nothing sent so far answers a packet with a new identity. */
  lemma {:induction false} NotYetAnswered(sent: seq<Packet>, done: seq<Packet>, p: Packet)
    requires AllSendable(done) && Answered(sent, done) && |p| >= 4
    requires forall j | 0 <= j < |done| :: !SameId(done[j], p)
    ensures forall i | 0 <= i < |sent| :: !Answers(sent[i], p)
  {
  }

  /** sent grew by at most one packet, which is a parameter. */
  ghost predicate GrewByParam(before: seq<Packet>, after: seq<Packet>) {
    after == before || exists q :: after == before + [q] && |q| >= 4 && IsParam(q[0])
  }

  /** Sending back a variable after it alone has changed. */
  lemma {:induction false} EchoKeeps(r: Robot, params: Params, k: Key)
    requires EchoesCurrent(r) && AllFitting(r.sent) && ParamsOk(params) && ParamKey(k)
    requires forall j | j in r.params.vars && j != k :: j in params.vars && params.vars[j] == r.params.vars[j]
    ensures var r2 := EmitParam(r.(params := params), k);
            && ParamsOk(r2.params) && EchoesCurrent(r2) && AllFitting(r2.sent) && GrewByParam(r.sent, r2.sent)
            && SameBody(r2.params.vars[k], params.vars[k])
  {
    hide Fits;
    hide Frame;
    var q := WithSeq(params.vars[k], r.globalSeq);
    assert Holds(k, params.vars[k]);
    assert Holds(k, q);
    var r2 := EmitParam(r.(params := params), k);
    forall j | j in r2.echoed
      ensures ParamKey(j) && j in r2.params.vars && LastOf(r2.sent, j) == Some(r2.params.vars[j])
    {
      LastOfSnoc(r.sent, q, j);
    }
    assert r2.sent == r.sent || r2.sent == r.sent + [q];
  }

  /** The effect of a packet, and the echo. */
  lemma {:induction false} EffectKeeps(r: Robot, p: Packet, joints: uint8)
    requires Sendable(p) && ParamsOk(r.params) && EchoesCurrent(r) && AllFitting(r.sent)
    ensures var e := Handle(r.params, p, joints);
            ParamsOk(e.params) &&
            (e.echo.Some? ==>
               ParamKey(e.echo.value) && e.echo.value in e.params.vars && |e.params.vars[e.echo.value]| >= 4)
    ensures var e := Handle(r.params, p, joints);
            var r1 := r.(params := e.params);
            var r2 := if e.echo.Some? then EmitParam(r1, e.echo.value) else r1;
            && ParamsOk(r2.params) && EchoesCurrent(r2) && AllFitting(r2.sent) && GrewByParam(r.sent, r2.sent)
            && Written(r2.params, p)
  {
    hide Fits;
    hide Frame;
    var e := Handle(r.params, p, joints);
    HandleOk(r.params, p, joints);
    if e.echo.Some? { EchoKeeps(r, e.params, e.echo.value); }
  }

  /** Handling one packet with a new identity keeps the invariant. */
  lemma {:induction false} HandleOneKeeps(r: Robot, done: seq<Packet>, p: Packet, joints: uint8)
    requires RobotInv(r, done) && Sendable(p)
    requires forall j | 0 <= j < |done| :: !SameId(done[j], p)
    ensures RobotInv(HandleOne(r, p, joints), done + [p])
  {
    hide Fits;
    hide Frame;
    hide ParamsOk;
    hide EmitParam;
    hide Handle;
    var e := Handle(r.params, p, joints);
    EffectKeeps(r, p, joints);
    HandleOk(r.params, p, joints);
    var r1 := r.(params := e.params);
    var r2 := if e.echo.Some? then EmitParam(r1, e.echo.value) else r1;
    var answer := WithSeq(Response(p, e.result), r2.globalSeq);
    ResponseKeeps(r, r2, done, p, answer);
    EchoesStay(r2, answer);
  }

  lemma {:induction false} ResponseKeeps(r: Robot, r2: Robot, done: seq<Packet>, p: Packet, answer: Packet)
    requires AllSendable(done) && Sendable(p) && Answered(r.sent, done) && GrewByParam(r.sent, r2.sent)
    requires forall j | 0 <= j < |done| :: !SameId(done[j], p)
    requires |answer| == 8 && Answers(answer, p)
    ensures AllSendable(done + [p])
    ensures Answered(Post(r2, answer).sent, done + [p]) && LastQuiet(Post(r2, answer).sent, done + [p])
  {
    hide Fits;
    hide Frame;
    var all := done + [p];
    assert all[|done|] == p;
    AnsweredMore(r.sent, done, p);
    NotYetAnswered(r.sent, done, p);
    if r2.sent != r.sent {
      var q :| r2.sent == r.sent + [q] && |q| >= 4 && IsParam(q[0]);
      AnsweredSnoc(r.sent, all, q);
    }
    forall i | 0 <= i < |r2.sent| ensures !Answers(r2.sent[i], p) {}
    assert Answers(answer, all[|done|]);
    AnsweredSnoc(r2.sent, all, answer);
  }

  /** A response is no parameter. */
  lemma {:induction false} EchoesStay(r: Robot, q: Packet)
    requires EchoesCurrent(r) && AllFitting(r.sent) && Fitting(TO_HOST, q) && !IsParam(q[0])
    ensures EchoesCurrent(Post(r, q)) && AllFitting(Post(r, q).sent)
  {
    hide Fits;
    hide Frame;
    forall k | k in r.echoed ensures LastOf(r.sent + [q], k) == LastOf(r.sent, k) { LastOfSnoc(r.sent, q, k); }
  }

  // ---------------------------------------------------------------- the cycle

  /** The deferred actions of a cycle, in order. */
  function HandleAll(r: Robot, ps: seq<Packet>, joints: seq<uint8>): Robot
    requires AllSendable(ps) && ParamsOk(r.params) && |joints| == |ps|
    decreases |ps|
  {
    if ps == [] then r
    else
      HandleOneOk(r, ps[0], joints[0]);
      HandleAll(HandleOne(r, ps[0], joints[0]), ps[1..], joints[1..])
  }

  lemma {:induction false} HandleOneOk(r: Robot, p: Packet, joints: uint8)
    requires Sendable(p) && ParamsOk(r.params)
    ensures ParamsOk(HandleOne(r, p, joints).params)
  {
    hide Fits;
    hide Frame;
    HandleOk(r.params, p, joints);
    var e := Handle(r.params, p, joints);
    if e.echo.Some? {
      var k := e.echo.value;
      assert Holds(k, e.params.vars[k]);
      assert Holds(k, WithSeq(e.params.vars[k], r.globalSeq));
    }
  }

  lemma {:induction false} HandleAllKeeps(r: Robot, done: seq<Packet>, ps: seq<Packet>, joints: seq<uint8>)
    requires RobotInv(r, done) && AllSendable(ps) && |joints| == |ps|
    requires AllSendable(done + ps) && DistinctIds(done + ps)
    ensures RobotInv(HandleAll(r, ps, joints), done + ps)
    decreases |ps|
  {
    if ps == [] {
      assert done + ps == done;
    } else {
      forall j | 0 <= j < |done| ensures !SameId(done[j], ps[0]) {
        assert (done + ps)[j] == done[j] && (done + ps)[|done|] == ps[0];
      }
      HandleOneKeeps(r, done, ps[0], joints[0]);
      assert done + ps == done + [ps[0]] + ps[1..];
      HandleAllKeeps(HandleOne(r, ps[0], joints[0]), done + [ps[0]], ps[1..], joints[1..]);
    }
  }

  /** What the subsystems have to report in a cycle. */
  datatype Report = Report(system: Packet, joint0: Packet, joint1: Packet, drive: Packet, sonar: Packet,
                           message: Packet, sonarReady: bool, hasMessage: bool)
  {
    predicate Valid() {
      && Fitting(TO_HOST, system) && system[0] == SYSTEM_STATUS
      && Fitting(TO_HOST, joint0) && joint0[0] == JOINT_STATUS && joint0[4] == 0
      && Fitting(TO_HOST, joint1) && joint1[0] == JOINT_STATUS && joint1[4] == 1
      && Fitting(TO_HOST, drive) && drive[0] == DRIVE_STATUS
      && Fitting(TO_HOST, sonar) && sonar[0] == SONAR_STATUS
      && Fitting(TO_HOST, message) && message[0] == MESSAGE
    }
  }

  /** periodic_packet_mask of the system parameters, and its flags. */
  function Mask(s: Params): uint8
    requires ParamsOk(s)
  {
    assert ParamKey(Key(SYSTEM_PARAM, 0));
    assert Holds(Key(SYSTEM_PARAM, 0), s.vars[Key(SYSTEM_PARAM, 0)]);
    s.vars[Key(SYSTEM_PARAM, 0)][20]
  }

  predicate Flag(mask: uint8, bit: uint8)
    requires bit > 0
  {
    (mask / bit) % 2 == 1
  }

  /** The periodic packets of a cycle, the string message, and the packet that ends the epoch. */
  function PeriodicSends(mask: uint8, r: Report): seq<Packet> {
    (if Flag(mask, 1) then [r.system] else []) +
    (if Flag(mask, 2) then [r.joint0, r.joint1] else []) +
    (if Flag(mask, 4) then [r.drive] else []) +
    (if Flag(mask, 8) && r.sonarReady then [r.sonar] else []) +
    (if r.hasMessage then [r.message] else []) +
    [[END_EPOCH, 4, 0, 0]]
  }

  ghost predicate AtLeastHeaders(ps: seq<Packet>) {
    forall i | 0 <= i < |ps| :: |ps[i]| >= 4
  }

  function EmitAll(r: Robot, ps: seq<Packet>): Robot
    requires AtLeastHeaders(ps)
    decreases |ps|
  {
    if ps == [] then r else EmitAll(Emit(r, ps[0]), ps[1..])
  }

  /** Packets that are neither responses nor parameters. */
  ghost predicate Plain(ps: seq<Packet>) {
    forall i | 0 <= i < |ps| :: Fitting(TO_HOST, ps[i]) && ps[i][0] != RESPONSE && !IsParam(ps[i][0])
  }

  lemma {:induction false} PeriodicPlain(mask: uint8, r: Report)
    requires r.Valid()
    ensures Plain(PeriodicSends(mask, r)) && AtLeastHeaders(PeriodicSends(mask, r))
  {
  }

  lemma {:induction false} EmitAllKeeps(r: Robot, done: seq<Packet>, ps: seq<Packet>)
    requires RobotInv(r, done) && Plain(ps) && AtLeastHeaders(ps)
    ensures RobotInv(EmitAll(r, ps), done) && EmitAll(r, ps).params == r.params
    decreases |ps|
  {
    if ps != [] {
      PlainKeeps(r, done, WithSeq(ps[0], r.globalSeq));
      EmitAllKeeps(Emit(r, ps[0]), done, ps[1..]);
    }
  }

  lemma {:induction false} PlainKeeps(r: Robot, done: seq<Packet>, q: Packet)
    requires RobotInv(r, done) && Fitting(TO_HOST, q) && q[0] != RESPONSE && !IsParam(q[0])
    ensures RobotInv(Post(r, q), done)
  {
    hide Fits;
    hide Frame;
    EchoesStay(r, q);
    AnsweredSnoc(r.sent, done, q);
    hide ParamsOk;
    hide Written;
  }

  /** Orazio_commHandle after the input has been read: a new sequence number, the pending packets,
      the periodic packets, the end of the epoch; then the ring is flushed to the line. */
  function Cycle(r: Robot, ps: seq<Packet>, joints: seq<uint8>, report: Report): (result: (Robot, seq<uint8>))
    requires AllSendable(ps) && ParamsOk(r.params) && |joints| == |ps| && report.Valid()
    ensures ParamsOk(result.0.params)
  {
    var r1 := HandleAll(r.(globalSeq := NextSeq(r.globalSeq)), ps, joints);
    HandleAllOk(r.(globalSeq := NextSeq(r.globalSeq)), ps, joints);
    var sends := PeriodicSends(Mask(r1.params), report);
    PeriodicPlain(Mask(r1.params), report);
    var r2 := EmitAll(r1, sends);
    EmitAllSends(r1, sends);
    (r2.(ring := []), r2.ring)
  }

  lemma {:induction false} HandleAllOk(r: Robot, ps: seq<Packet>, joints: seq<uint8>)
    requires AllSendable(ps) && ParamsOk(r.params) && |joints| == |ps|
    ensures ParamsOk(HandleAll(r, ps, joints).params) && HandleAll(r, ps, joints).globalSeq == r.globalSeq
    decreases |ps|
  {
    if ps != [] {
      HandleOneOk(r, ps[0], joints[0]);
      HandleAllOk(HandleOne(r, ps[0], joints[0]), ps[1..], joints[1..]);
    }
  }

  lemma {:induction false} CycleKeeps(r: Robot, done: seq<Packet>, ps: seq<Packet>, joints: seq<uint8>, report: Report)
    requires RobotInv(r, done) && AllSendable(ps) && |joints| == |ps| && report.Valid()
    requires AllSendable(done + ps) && DistinctIds(done + ps)
    ensures RobotInv(Cycle(r, ps, joints, report).0, done + ps)
  {
    var r0 := r.(globalSeq := NextSeq(r.globalSeq));
    var r1 := HandleAll(r0, ps, joints);
    HandleAllKeeps(r0, done, ps, joints);
    PeriodicPlain(Mask(r1.params), report);
    EmitAllKeeps(r1, done + ps, PeriodicSends(Mask(r1.params), report));
  }

  // ---------------------------------------------------------------- saved parameters

  /** p asks to save, or to load, parameter k. */
  predicate Saves(p: Packet, k: Key)
    requires Sendable(p)
  {
    p[0] == PARAM_CONTROL && p[4] == 2 && Target(p) == Some(k)
  }

  predicate Loads(p: Packet, k: Key)
    requires Sendable(p)
  {
    p[0] == PARAM_CONTROL && p[4] == 1 && Target(p) == Some(k)
  }

  /** Only saving a parameter changes its saved copy. */
  lemma {:induction false} EepromKept(r: Robot, p: Packet, joints: uint8, k: Key)
    requires Sendable(p) && ParamsOk(r.params) && ParamKey(k)
    ensures k in HandleOne(r, p, joints).params.eeprom
    ensures HandleOne(r, p, joints).params.eeprom[k] == if Saves(p, k) then r.params.vars[k] else r.params.eeprom[k]
  {
    hide Fits;
    hide Frame;
    HandleOk(r.params, p, joints);
  }

  lemma {:induction false} EepromKeptByAll(r: Robot, ps: seq<Packet>, joints: seq<uint8>, k: Key)
    requires AllSendable(ps) && ParamsOk(r.params) && |joints| == |ps| && ParamKey(k)
    requires forall i | 0 <= i < |ps| :: !Saves(ps[i], k)
    ensures k in HandleAll(r, ps, joints).params.eeprom
    ensures HandleAll(r, ps, joints).params.eeprom[k] == r.params.eeprom[k]
    decreases |ps|
  {
    hide HandleOne;
    hide Saves;
    if ps != [] {
      HandleOneOk(r, ps[0], joints[0]);
      EepromKept(r, ps[0], joints[0], k);
      EepromKeptByAll(HandleOne(r, ps[0], joints[0]), ps[1..], joints[1..], k);
    }
  }

  lemma {:induction false} LoadRestores(r: Robot, p: Packet, joints: uint8, k: Key)
    requires Sendable(p) && ParamsOk(r.params) && ParamKey(k) && Loads(p, k)
    ensures k in HandleOne(r, p, joints).params.vars
    ensures SameBody(HandleOne(r, p, joints).params.vars[k], r.params.eeprom[k])
  {
    hide Fits;
    hide Frame;
    HandleOk(r.params, p, joints);
    assert Holds(k, r.params.eeprom[k]);
  }

  /** Saving a parameter and loading it later, whatever was handled in between except another save of it,
      brings back what it was, but for the sequence number. */
  lemma {:induction false} SavedIsLoaded(r: Robot, save: Packet, ps: seq<Packet>, load: Packet, joints: seq<uint8>,
                                         k: Key)
    requires ParamsOk(r.params) && ParamKey(k) && Sendable(save) && AllSendable(ps) && Sendable(load)
    requires Saves(save, k) && Loads(load, k) && |joints| == |ps| && forall i | 0 <= i < |ps| :: !Saves(ps[i], k)
    ensures ParamsOk(HandleOne(r, save, 0).params) && ParamsOk(HandleAll(HandleOne(r, save, 0), ps, joints).params)
    ensures var end := HandleOne(HandleAll(HandleOne(r, save, 0), ps, joints), load, 0);
            k in end.params.vars && k in r.params.vars && SameBody(end.params.vars[k], r.params.vars[k])
  {
    HandleOneOk(r, save, 0);
    EepromKept(r, save, 0, k);
    hide HandleOne;
    hide Saves;
    hide Loads;
    var r1 := HandleOne(r, save, 0);
    HandleAllOk(r1, ps, joints);
    EepromKeptByAll(r1, ps, joints, k);
    hide HandleAll;
    LoadRestores(HandleAll(r1, ps, joints), load, 0, k);
  }

  // ---------------------------------------------------------------- what a cycle sends

  /** The sends that handling p attempts: the echo, if any, then the response. */
  function SendsOf(s: Params, g: Seq16, p: Packet, joints: uint8): seq<Packet>
    requires Sendable(p) && ParamsOk(s)
  {
    var e := Handle(s, p, joints);
    HandleOk(s, p, joints);
    (if e.echo.Some? then [WithSeq(e.params.vars[e.echo.value], g)] else []) + [WithSeq(Response(p, e.result), g)]
  }

  /** What handling p appends to the history and to the ring. */
  lemma {:induction false} HandleOneSends(r: Robot, p: Packet, joints: uint8)
    requires Sendable(p) && ParamsOk(r.params)
    ensures var a := SendsOf(r.params, r.globalSeq, p, joints);
            HandleOne(r, p, joints).sent == r.sent + Accepted(r.ring, a) &&
            HandleOne(r, p, joints).ring == PushAll(r.ring, a) && HandleOne(r, p, joints).globalSeq == r.globalSeq
  {
    hide Fits;
    hide Frame;
    hide ParamsOk;
    var e := Handle(r.params, p, joints);
    HandleOk(r.params, p, joints);
    EchoFits(r.params, p, joints);
    var answer := WithSeq(Response(p, e.result), r.globalSeq);
    if e.echo.Some? {
      var q := WithSeq(e.params.vars[e.echo.value], r.globalSeq);
      TwoSends(r.ring, q, answer);
      assert SendsOf(r.params, r.globalSeq, p, joints) == [q, answer];
    } else {
      OneSend(r.ring, answer);
      assert SendsOf(r.params, r.globalSeq, p, joints) == [answer];
    }
  }

  lemma {:induction false} EchoFits(s: Params, p: Packet, joints: uint8)
    requires Sendable(p) && ParamsOk(s)
    ensures var e := Handle(s, p, joints);
            e.echo.Some? ==> e.echo.value in e.params.vars && Holds(e.echo.value, e.params.vars[e.echo.value])
  {
    HandleOk(s, p, joints);
  }

  lemma {:induction false} OneSend(ring: seq<uint8>, p: Packet)
    ensures PushAll(ring, [p]) == Push(ring, p)
    ensures Accepted(ring, [p]) == if Fits(ring, p) then [p] else []
  {
    assert [p][1..] == [];
  }

  lemma {:induction false} TwoSends(ring: seq<uint8>, p: Packet, q: Packet)
    ensures PushAll(ring, [p, q]) == Push(Push(ring, p), q)
    ensures Accepted(ring, [p, q]) == (if Fits(ring, p) then [p] else []) + (if Fits(Push(ring, p), q) then [q] else [])
  {
    assert [p, q] == [p] + [q];
    PushAllConcat(ring, [p], [q]);
    OneSend(ring, p);
    OneSend(Push(ring, p), q);
  }

  function AllSendsOf(r: Robot, ps: seq<Packet>, joints: seq<uint8>): seq<Packet>
    requires AllSendable(ps) && ParamsOk(r.params) && |joints| == |ps|
    decreases |ps|
  {
    if ps == [] then []
    else
      HandleOneOk(r, ps[0], joints[0]);
      SendsOf(r.params, r.globalSeq, ps[0], joints[0])
      + AllSendsOf(HandleOne(r, ps[0], joints[0]), ps[1..], joints[1..])
  }

  lemma {:induction false} HandleAllSends(r: Robot, ps: seq<Packet>, joints: seq<uint8>)
    requires AllSendable(ps) && ParamsOk(r.params) && |joints| == |ps|
    ensures var a := AllSendsOf(r, ps, joints);
            HandleAll(r, ps, joints).sent == r.sent + Accepted(r.ring, a) &&
            HandleAll(r, ps, joints).ring == PushAll(r.ring, a) && HandleAll(r, ps, joints).globalSeq == r.globalSeq
    decreases |ps|
  {
    hide SendsOf;
    hide HandleOne;
    hide ParamsOk;
    hide Fits;
    if ps == [] {
      assert r.sent + [] == r.sent;
    } else {
      var next := HandleOne(r, ps[0], joints[0]);
      var first := SendsOf(r.params, r.globalSeq, ps[0], joints[0]);
      HandleOneOk(r, ps[0], joints[0]);
      HandleOneSends(r, ps[0], joints[0]);
      HandleAllSends(next, ps[1..], joints[1..]);
      var rest := AllSendsOf(next, ps[1..], joints[1..]);
      PushAllConcat(r.ring, first, rest);
      ConcatAssoc(r.sent, Accepted(r.ring, first), Accepted(next.ring, rest));
    }
  }

  /** Some packets with the sequence number g. */
  function Stamped(ps: seq<Packet>, g: Seq16): (qs: seq<Packet>)
    requires AtLeastHeaders(ps)
    ensures |qs| == |ps| && forall i | 0 <= i < |ps| :: qs[i] == WithSeq(ps[i], g)
  {
    seq(|ps|, i requires 0 <= i < |ps| => WithSeq(ps[i], g))
  }

  lemma {:induction false} EmitAllSends(r: Robot, ps: seq<Packet>)
    requires AtLeastHeaders(ps)
    ensures var a := Stamped(ps, r.globalSeq);
            EmitAll(r, ps) == r.(sent := r.sent + Accepted(r.ring, a), ring := PushAll(r.ring, a))
    decreases |ps|
  {
    hide Fits;
    hide Frame;
    if ps == [] {
      assert r.sent + [] == r.sent;
    } else {
      var next, a := Emit(r, ps[0]), Stamped(ps, r.globalSeq);
      EmitAllSends(next, ps[1..]);
      assert a == [a[0]] + Stamped(ps[1..], r.globalSeq);
      OneSend(r.ring, a[0]);
      PushAllConcat(r.ring, [a[0]], Stamped(ps[1..], r.globalSeq));
      ConcatAssoc(r.sent, Accepted(r.ring, [a[0]]), Accepted(next.ring, Stamped(ps[1..], r.globalSeq)));
      assert r.sent + [] == r.sent;
    }
  }

  /** All the sends a cycle attempts, in order. */
  function Attempts(r: Robot, ps: seq<Packet>, joints: seq<uint8>, report: Report): seq<Packet>
    requires AllSendable(ps) && ParamsOk(r.params) && |joints| == |ps| && report.Valid()
  {
    var r0 := r.(globalSeq := NextSeq(r.globalSeq));
    var r1 := HandleAll(r0, ps, joints);
    HandleAllOk(r0, ps, joints);
    PeriodicPlain(Mask(r1.params), report);
    AllSendsOf(r0, ps, joints) + Stamped(PeriodicSends(Mask(r1.params), report), r0.globalSeq)
  }

  /** A cycle sends what the ring takes of its attempts, and puts their frames on the line. */
  lemma {:induction false} CycleSends(r: Robot, ps: seq<Packet>, joints: seq<uint8>, report: Report)
    requires AllSendable(ps) && ParamsOk(r.params) && |joints| == |ps| && report.Valid() && r.ring == []
    ensures var (r2, out) := Cycle(r, ps, joints, report);
            var taken := Accepted([], Attempts(r, ps, joints, report));
            && r2.sent == r.sent + taken && out == Frames(taken)
            && r2.ring == [] && r2.globalSeq == NextSeq(r.globalSeq)
  {
    hide Fits;
    hide Frame;
    hide ParamsOk;
    hide PeriodicSends;
    var r0 := r.(globalSeq := NextSeq(r.globalSeq));
    var r1 := HandleAll(r0, ps, joints);
    HandleAllOk(r0, ps, joints);
    HandleAllSends(r0, ps, joints);
    PeriodicPlain(Mask(r1.params), report);
    var sends := PeriodicSends(Mask(r1.params), report);
    EmitAllSends(r1, sends);
    var a, b := AllSendsOf(r0, ps, joints), Stamped(sends, r0.globalSeq);
    PushAllConcat([], a, b);
    ConcatAssoc(r.sent, Accepted([], a), Accepted(r1.ring, b));
    PushAllIsFrames([], a + b);
    assert [] + Frames(Accepted([], a + b)) == Frames(Accepted([], a + b));
  }

  // ---------------------------------------------------------------- which parameter is sent back

  /** The parameter that handling p sends back: the target of a parameter control packet, or the parameter
      just set. */
  function EchoOf(p: Packet): Option<Key>
    requires Sendable(p)
  {
    if p[0] == PARAM_CONTROL then Target(p)
    else if IsParam(p[0]) && (Indexed(p[0]) ==> p[4] < NUM_JOINTS) then Some(KeyOf(p))
    else None
  }

  /** A handled packet whose sends all fit leaves its echo, and all earlier ones, among those accepted. */
  lemma {:induction false} EchoAccepted(r: Robot, p: Packet, joints: uint8)
    requires Sendable(p) && ParamsOk(r.params)
    requires |r.ring| + |Frames(SendsOf(r.params, r.globalSeq, p, joints))| <= SIZE_MAX
    ensures var n := HandleOne(r, p, joints);
            n.echoed == if EchoOf(p).Some? then r.echoed + {EchoOf(p).value} else r.echoed
    ensures |HandleOne(r, p, joints).ring| == |r.ring| + |Frames(SendsOf(r.params, r.globalSeq, p, joints))|
  {
    HandleOneSends(r, p, joints);
    var a := SendsOf(r.params, r.globalSeq, p, joints);
    PushAllIsFrames(r.ring, a);
    AllAcceptedIffTheyFit(r.ring, a);
    EchoFits(r.params, p, joints);
    EchoFirst(r, p, joints);
    hide Frame;
    hide ParamsOk;
  }

  /** The echo is the first send. */
  lemma {:induction false} EchoFirst(r: Robot, p: Packet, joints: uint8)
    requires Sendable(p) && ParamsOk(r.params)
    requires |r.ring| + |Frames(SendsOf(r.params, r.globalSeq, p, joints))| <= SIZE_MAX
    ensures var e := Handle(r.params, p, joints);
            && e.echo == EchoOf(p)
            && (e.echo.Some? ==> e.echo.value in e.params.vars && Holds(e.echo.value, e.params.vars[e.echo.value]) &&
                                 Fits(r.ring, WithSeq(e.params.vars[e.echo.value], r.globalSeq)))
  {
    EchoFits(r.params, p, joints);
    HandleOk(r.params, p, joints);
    var e := Handle(r.params, p, joints);
    if e.echo.Some? {
      var q := WithSeq(e.params.vars[e.echo.value], r.globalSeq);
      var a := SendsOf(r.params, r.globalSeq, p, joints);
      assert Frames(a) == Frame(a[0]) + Frames(a[1..]) && a[0] == q;
      hide Frames;
    }
  }

  /** The parameters that handling some packets sends back. */
  function EchoesOf(ps: seq<Packet>): set<Key>
    requires AllSendable(ps)
  {
    set i | 0 <= i < |ps| && EchoOf(ps[i]).Some? :: EchoOf(ps[i]).value
  }

  lemma {:induction false} EchoesCons(ps: seq<Packet>)
    requires AllSendable(ps) && ps != []
    ensures EchoesOf(ps) == (if EchoOf(ps[0]).Some? then {EchoOf(ps[0]).value} else {}) + EchoesOf(ps[1..])
  {
    hide EchoOf;
    hide Sendable;
    var tail := ps[1..];
    forall k | k in EchoesOf(ps)
      ensures k in (if EchoOf(ps[0]).Some? then {EchoOf(ps[0]).value} else {}) + EchoesOf(tail)
    {
      var i :| 0 <= i < |ps| && EchoOf(ps[i]).Some? && EchoOf(ps[i]).value == k;
      if i > 0 { assert tail[i - 1] == ps[i]; }
    }
    forall k | k in EchoesOf(tail) ensures k in EchoesOf(ps) {
      var i :| 0 <= i < |tail| && EchoOf(tail[i]).Some? && EchoOf(tail[i]).value == k;
      assert ps[i + 1] == tail[i];
    }
  }

  lemma {:induction false} AllEchoesAccepted(r: Robot, ps: seq<Packet>, joints: seq<uint8>)
    requires AllSendable(ps) && ParamsOk(r.params) && |joints| == |ps|
    requires |r.ring| + |Frames(AllSendsOf(r, ps, joints))| <= SIZE_MAX
    ensures HandleAll(r, ps, joints).echoed == r.echoed + EchoesOf(ps)
    decreases |ps|
  {
    hide SendsOf;
    hide HandleOne;
    hide ParamsOk;
    hide Frames;
    hide EchoOf;
    hide Sendable;
    if ps == [] {
      assert EchoesOf(ps) == {};
    } else {
      var next, first := HandleOne(r, ps[0], joints[0]), SendsOf(r.params, r.globalSeq, ps[0], joints[0]);
      HandleOneOk(r, ps[0], joints[0]);
      FramesConcat(first, AllSendsOf(next, ps[1..], joints[1..]));
      EchoAccepted(r, ps[0], joints[0]);
      AllEchoesAccepted(next, ps[1..], joints[1..]);
      EchoesCons(ps);
    }
  }

  /** A cycle that refuses nothing leaves every parameter it sends back among those whose latest copy was
      accepted; a cycle that handles nothing changes nothing about them. */
  lemma {:induction false} CycleEchoes(r: Robot, ps: seq<Packet>, joints: seq<uint8>, report: Report)
    requires AllSendable(ps) && ParamsOk(r.params) && |joints| == |ps| && report.Valid() && r.ring == []
    ensures |Frames(Attempts(r, ps, joints, report))| <= SIZE_MAX ==>
              Cycle(r, ps, joints, report).0.echoed == r.echoed + EchoesOf(ps)
    ensures ps == [] ==> Cycle(r, ps, joints, report).0.echoed == r.echoed
  {
    hide Frames;
    hide PeriodicSends;
    hide ParamsOk;
    hide AllSendsOf;
    hide EchoesOf;
    var r0 := r.(globalSeq := NextSeq(r.globalSeq));
    var r1 := HandleAll(r0, ps, joints);
    HandleAllOk(r0, ps, joints);
    PeriodicPlain(Mask(r1.params), report);
    var sends := PeriodicSends(Mask(r1.params), report);
    EmitAllSends(r1, sends);
    FramesConcat(AllSendsOf(r0, ps, joints), Stamped(sends, r0.globalSeq));
    if |Frames(Attempts(r, ps, joints, report))| <= SIZE_MAX { AllEchoesAccepted(r0, ps, joints); }
  }
}
