/** The packets of the Orazio protocol (orazio_packets.h): types, sizes, sequence numbers,
    and the variables of either side that a packet is copied into. */
module Messages {
  import opened Words
  import opened Packets
  import opened Deferred

  const RESPONSE: uint8 := 0
  const PARAM_CONTROL: uint8 := 1
  const SYSTEM_STATUS: uint8 := 2
  const SYSTEM_PARAM: uint8 := 3
  const JOINT_STATUS: uint8 := 4
  const JOINT_CONTROL: uint8 := 5
  const JOINT_PARAM: uint8 := 6
  const DRIVE_STATUS: uint8 := 7
  const DRIVE_CONTROL: uint8 := 8
  const DRIVE_PARAM: uint8 := 9
  const END_EPOCH: uint8 := 10
  const MESSAGE: uint8 := 11
  const SONAR_STATUS: uint8 := 12
  const SONAR_PARAM: uint8 := 13

  const NUM_JOINTS: uint8 := 2

  /** What the host sends and the firmware receives, with the packed sizes. */
  const TO_ROBOT: OpTable :=
    map[PARAM_CONTROL := 7, SYSTEM_PARAM := 24, JOINT_CONTROL := 8, JOINT_PARAM := 25,
        DRIVE_CONTROL := 12, DRIVE_PARAM := 38, SONAR_PARAM := 12]

  /** What the firmware sends and the host receives. */
  const TO_HOST: OpTable :=
    map[RESPONSE := 8, MESSAGE := 84, SYSTEM_PARAM := 24, SYSTEM_STATUS := 27, JOINT_STATUS := 16,
        JOINT_PARAM := 25, DRIVE_PARAM := 38, DRIVE_STATUS := 41, END_EPOCH := 4,
        SONAR_STATUS := 20, SONAR_PARAM := 12]

  /** Two buffers for each type the firmware receives. */
  const ROBOT_CAPS: Caps :=
    map[PARAM_CONTROL := 2, SYSTEM_PARAM := 2, JOINT_CONTROL := 2, JOINT_PARAM := 2,
        DRIVE_CONTROL := 2, DRIVE_PARAM := 2, SONAR_PARAM := 2]

  /** A uint16 sequence number, little endian in bytes 2 and 3 of a packet. */
  type Seq16 = x: nat | x < 0x1_0000

  function SeqOf(p: Packet): Seq16
    requires |p| >= 4
  {
    p[2] as int + 256 * p[3] as int
  }

  function WithSeq(p: Packet, s: Seq16): (q: Packet)
    requires |p| >= 4
    ensures |q| == |p| && SeqOf(q) == s
    ensures forall i | 0 <= i < |p| && i != 2 && i != 3 :: q[i] == p[i]
  {
    p[2 := (s % 256) as uint8][3 := (s / 256) as uint8]
  }

  /** ++seq on a uint16. */
  function NextSeq(s: Seq16): (r: Seq16)
    ensures r != s
  {
    if s == 0xFFFF then 0 else s + 1
  }

  /** Two packets that agree on everything but the sequence number. */
  predicate SameBody(p: Packet, q: Packet) {
    |p| == |q| && forall i | 0 <= i < |p| && i != 2 && i != 3 :: p[i] == q[i]
  }

  /** A variable a packet is stored in; arrays have one per joint. */
  datatype Key = Key(typ: uint8, index: uint8)

  predicate Indexed(t: uint8) {
    t == JOINT_STATUS || t == JOINT_CONTROL || t == JOINT_PARAM
  }

  function KeyOf(p: Packet): Key
    requires p != []
  {
    if Indexed(p[0]) && |p| > 4 then Key(p[0], p[4]) else Key(p[0], 0)
  }

  type Store = map<Key, Packet>

  datatype Option<+T> = None | Some(value: T)

  /** The parameters that the firmware sends back when they are set or requested. */
  predicate IsParam(t: uint8) {
    t == SYSTEM_PARAM || t == JOINT_PARAM || t == DRIVE_PARAM || t == SONAR_PARAM
  }

  /** A packet that fits a table of operations. */
  predicate Fitting(ops: OpTable, p: Packet) {
    |p| >= 4 && p[1] as int == |p| && p[0] in ops && ops[p[0]] == p[1]
  }

  /** The last of some packets that belongs into variable k. */
  function LastOf(ps: seq<Packet>, k: Key): (p: Option<Packet>)
    ensures p.Some? ==> p.value in ps
  {
    if ps == [] then None
    else if ps[|ps| - 1] != [] && KeyOf(ps[|ps| - 1]) == k then Some(ps[|ps| - 1])
    else LastOf(ps[..|ps| - 1], k)
  }

  lemma {:induction false} LastOfSnoc(ps: seq<Packet>, p: Packet, k: Key)
    ensures LastOf(ps + [p], k) == if p != [] && KeyOf(p) == k then Some(p) else LastOf(ps, k)
  {
    assert (ps + [p])[..|ps|] == ps;
  }

  lemma {:induction false} LastOfConcat(a: seq<Packet>, b: seq<Packet>, k: Key)
    requires forall i | 0 <= i < |b| :: b[i] != [] && KeyOf(b[i]) != k
    ensures LastOf(a + b, k) == LastOf(a, k)
    decreases |b|
  {
    if b == [] {
      assert a + b == a;
    } else {
      var n := |b| - 1;
      LastOfConcat(a, b[..n], k);
      LastOfSnoc(a + b[..n], b[n], k);
      assert a + b == a + b[..n] + [b[n]];
    }
  }

  /** A packet the host may send: the type and size are right, and a joint index, which the firmware
      reads as a signed byte, is not negative. */
  predicate Sendable(p: Packet) {
    Fitting(TO_ROBOT, p) && (Indexed(p[0]) ==> p[4] < 128)
    && (p[0] == PARAM_CONTROL && p[5] == 1 ==> p[6] < NUM_JOINTS)
  }
}
