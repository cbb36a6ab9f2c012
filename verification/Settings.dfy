/** orazio_comm.c seen from the line: which parameter a type code stands for, what setting, requesting, loading and
    saving send back, and what a host gets that asks for what it has set. */
module Settings {
  import opened Words
  import opened Packets
  import opened Transmit
  import opened Messages
  import opened Firmware

  /** The packet types of system, joint, drive and sonar parameters, by their type code. */
  const CODES: seq<uint8> := [3, 6, 9, 13]

  /** p asks for the parameter q: the code has the type of q, and for a joint the index of q. */
  predicate AsksFor(p: Packet, q: Packet) {
    |p| >= 7 && |q| >= 5 && p[0] == 1 && p[5] < 4 && q[0] == CODES[p[5]] && (p[5] == 1 ==> q[4] == p[6])
  }

  /** What a parameter control packet sends, in every state: with a known type code the parameter it asks for,
      as it is, or as it was saved if it is to be loaded; then, or with any other code only, the response. */
  lemma {:induction false} ControlSends(s: Params, g: Seq16, p: Packet, joints: uint8)
    requires Sendable(p) && ParamsOk(s) && p[0] == 1
    ensures var a := SendsOf(s, g, p, joints);
            && |a| == (if p[5] < 4 then 2 else 1)
            && |a[|a| - 1]| == 8 && a[|a| - 1][0] == 0 && a[|a| - 1][4..7] == [p[0], p[2], p[3]]
            && a[|a| - 1][7] == (if p[4] > 2 || (p[4] > 0 && p[5] > 3) then 129 else 0)
    ensures var a := SendsOf(s, g, p, joints);
            p[5] < 4 ==>
              AsksFor(p, a[0]) &&
              SameBody(a[0], (if p[4] == 1 then s.eeprom else s.vars)[Key(a[0][0], if p[5] == 1 then p[6] else 0)])
  {
    EchoFits(s, p, joints);
    var k := Key(CODES[if p[5] < 4 then p[5] else 0], if p[5] == 1 then p[6] else 0);
    if p[5] < 4 {
      assert ParamKey(k);
      assert Holds(k, s.vars[k]) && Holds(k, s.eeprom[k]);
    }
    hide ParamsOk;
  }

  /** What it changes: loading overwrites that one parameter by its saved copy, saving the saved copy by the
      parameter; nothing else ever changes. */
  lemma {:induction false} ControlKeeps(s: Params, p: Packet, joints: uint8)
    requires Sendable(p) && ParamsOk(s) && p[0] == 1
    ensures var after := Handle(s, p, joints).params;
            if p[5] < 4 && (p[4] == 1 || p[4] == 2) then
              var k := Key(CODES[p[5]], if p[5] == 1 then p[6] else 0);
              k in s.vars && k in s.eeprom &&
              after == if p[4] == 1 then Params(s.vars[k := s.eeprom[k]], s.eeprom)
                       else Params(s.vars, s.eeprom[k := s.vars[k]])
            else after == s
  {
    var k := Key(CODES[if p[5] < 4 then p[5] else 0], if p[5] == 1 then p[6] else 0);
    if p[5] < 4 { assert ParamKey(k); }
  }

  /** A packet with a joint index that does not exist. */
  predicate NoSuchJoint(p: Packet) {
    |p| >= 5 && (p[0] == 5 || p[0] == 6) && p[4] >= 2
  }

  /** Any other packet is stored as it came, in the variable of its type and joint, and nothing else changes; only
      parameters are sent back. A joint that does not exist changes nothing and is answered by an error. */
  lemma {:induction false} SettingStores(s: Params, g: Seq16, p: Packet, joints: uint8)
    requires Sendable(p) && ParamsOk(s) && p[0] != 1
    ensures Handle(s, p, joints).params ==
            if NoSuchJoint(p) then s
            else s.(vars := s.vars[Key(p[0], if p[0] == 5 || p[0] == 6 then p[4] else 0) := p])
    ensures var a := SendsOf(s, g, p, joints);
            && |a| == (if p[0] in CODES && !NoSuchJoint(p) then 2 else 1)
            && (|a| == 2 ==> SameBody(a[0], p))
            && |a[|a| - 1]| == 8 && a[|a| - 1][0] == 0 && a[|a| - 1][4..7] == [p[0], p[2], p[3]]
            && a[|a| - 1][7] == (if NoSuchJoint(p) then 129 else if p[0] == 6 then joints else 0)
  {
    EchoFits(s, p, joints);
    hide ParamsOk;
  }

  // ---------------------------------------------------------------- what was set is what is sent

  /** Handling p can change parameter k: it sets it or loads it. */
  predicate Writes(p: Packet, k: Key)
    requires Sendable(p)
  {
    if p[0] == 1 then
      p[4] == 1 && p[5] < 4 && k == Key(CODES[p[5]], if p[5] == 1 then p[6] else 0)
    else k == KeyOf(p)
  }

  lemma {:induction false} Untouched(s: Params, p: Packet, joints: uint8, k: Key)
    requires Sendable(p) && ParamsOk(s) && ParamKey(k) && !Writes(p, k)
    ensures k in s.vars && |s.vars[k]| >= 4 && k in Handle(s, p, joints).params.vars
    ensures Handle(s, p, joints).params.vars[k] == s.vars[k]
  {
    if p[0] == 1 { ControlKeeps(s, p, joints); } else { SettingStores(s, 0, p, joints); }
    assert k in s.vars && Holds(k, s.vars[k]);
    hide Handle;
    hide ParamsOk;
    hide SendsOf;
  }

  lemma {:induction false} VarKept(r: Robot, p: Packet, joints: uint8, k: Key)
    requires Sendable(p) && ParamsOk(r.params) && ParamKey(k) && !Writes(p, k)
    ensures k in HandleOne(r, p, joints).params.vars && k in r.params.vars
    ensures SameBody(HandleOne(r, p, joints).params.vars[k], r.params.vars[k])
  {
    Untouched(r.params, p, joints, k);
    EchoFits(r.params, p, joints);
    hide Handle;
    hide ParamsOk;
    hide Writes;
    hide Sendable;
    hide Fits;
    hide Frame;
  }

  lemma {:induction false} VarKeptByAll(r: Robot, ps: seq<Packet>, joints: seq<uint8>, k: Key)
    requires AllSendable(ps) && ParamsOk(r.params) && |joints| == |ps| && ParamKey(k)
    requires forall i | 0 <= i < |ps| :: !Writes(ps[i], k)
    ensures k in HandleAll(r, ps, joints).params.vars && k in r.params.vars
    ensures SameBody(HandleAll(r, ps, joints).params.vars[k], r.params.vars[k])
    decreases |ps|
  {
    hide HandleOne;
    hide Writes;
    if ps != [] {
      HandleOneOk(r, ps[0], joints[0]);
      VarKept(r, ps[0], joints[0], k);
      VarKeptByAll(HandleOne(r, ps[0], joints[0]), ps[1..], joints[1..], k);
    }
  }

  lemma {:induction false} SetHolds(r: Robot, p: Packet, joints: uint8)
    requires Sendable(p) && ParamsOk(r.params) && p[0] in CODES && !NoSuchJoint(p)
    ensures ParamKey(KeyOf(p)) && KeyOf(p) in HandleOne(r, p, joints).params.vars
    ensures SameBody(HandleOne(r, p, joints).params.vars[KeyOf(p)], p)
  {
    SettingStores(r.params, r.globalSeq, p, joints);
    EchoFits(r.params, p, joints);
    hide ParamsOk;
    hide Fits;
    hide Frame;
  }

  /** Round trip. A parameter is set, then other packets are handled that neither set nor load it, then it is
      requested by its code: the body that was set is sent back. */
  lemma {:induction false} SetThenRequest(r: Robot, set_: Packet, ps: seq<Packet>, ask: Packet, joints: seq<uint8>,
                                          j0: uint8, j1: uint8)
    requires ParamsOk(r.params) && Sendable(set_) && AllSendable(ps) && Sendable(ask) && |joints| == |ps|
    requires set_[0] in CODES && !NoSuchJoint(set_) && AsksFor(ask, set_) && ask[4] == 0
    requires forall i | 0 <= i < |ps| :: !Writes(ps[i], KeyOf(set_))
    ensures ParamsOk(HandleOne(r, set_, j0).params)
    ensures var r1 := HandleAll(HandleOne(r, set_, j0), ps, joints);
            && ParamsOk(r1.params)
            && var a := SendsOf(r1.params, r1.globalSeq, ask, j1);
               |a| == 2 && SameBody(a[0], set_)
  {
    var k := KeyOf(set_);
    HandleOneOk(r, set_, j0);
    SetHolds(r, set_, j0);
    hide HandleOne;
    hide Writes;
    var r0 := HandleOne(r, set_, j0);
    HandleAllOk(r0, ps, joints);
    VarKeptByAll(r0, ps, joints, k);
    hide HandleAll;
    var r1 := HandleAll(r0, ps, joints);
    ControlSends(r1.params, r1.globalSeq, ask, j1);
    hide ParamsOk;
    hide SendsOf;
  }
}
