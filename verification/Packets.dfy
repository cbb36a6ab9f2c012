/** The wire format: packet header, status codes, checksum and frame layout
    (packet_header.h, packet_operations.h, orazio_packets.h). */
module Packets {
  import opened Words

  /** PACKET_TYPE_MAX: valid packet types are 0..19. */
  const TYPE_MAX: uint8 := 20

  /** PACKET_SIZE_ANY: an operation with this size accepts every received size. */
  const SIZE_ANY: uint8 := 0xFF

  /** PACKET_SIZE_MAX: capacity of the transmit ring and largest packet. */
  const SIZE_MAX: nat := 254

  /** PENDING_PACKETS_MAX and PACKETS_PER_TYPE_MAX of the deferred handler. */
  const PENDING_MAX: nat := 8
  const PER_TYPE_MAX: nat := 2

  datatype Status =
    | UnknownType | RxBufferError | InvalidSize | ChecksumError | Unsync
    | TypeOutOfBounds | InstallError | UninstallError | TxBufferFull
    | Timeout | GenericError
    | Success | SyncAA | Sync55 | SyncType | SyncSize
    | SyncPayload | SyncPayloadComplete | SyncChecksum

  /** A packet as it lies in memory: type, size, two sequence bytes, body. */
  type Packet = seq<uint8>

  /** The types installed in a handler, with the expected size of each. */
  type OpTable = map<uint8, uint8>

  /** A packet whose size field tells its length. */
  predicate Sized(p: Packet) {
    |p| >= 2 && p[1] as int == |p|
  }

  /** Every installed type is in range and has a fixed size that holds a header. */
  ghost predicate FixedSizes(ops: OpTable) {
    forall t | t in ops :: t < TYPE_MAX && 4 <= ops[t] as int <= SIZE_MAX
  }

  /** p is a packet that a handler with these operations expects. */
  ghost predicate Matches(ops: OpTable, p: Packet) {
    Sized(p) && |p| >= 4 && p[0] in ops && ops[p[0]] == p[1]
  }

  /** XOR over a byte string. */
  function Xor(s: seq<uint8>): uint8 {
    if s == [] then 0 else Xor2(Xor(s[..|s| - 1]), s[|s| - 1])
  }

  lemma {:induction false} XorConcat(a: seq<uint8>, b: seq<uint8>)
    ensures Xor(a + b) == Xor2(Xor(a), Xor(b))
    decreases |b|
  {
    if b == [] {
      assert a + b == a;
      XorZero(Xor(a));
    } else {
      var n := |b| - 1;
      XorConcat(a, b[..n]);
      XorAssoc(Xor(a), Xor(b[..n]), b[n]);
      assert (a + b)[..|a + b| - 1] == a + b[..n];
    }
  }

  lemma {:induction false} XorSingle(c: uint8)
    ensures Xor([c]) == c
  {
    assert [c][..0] == [];
    XorZero(c);
  }

  lemma {:induction false} XorSnoc(b: seq<uint8>, c: uint8)
    ensures Xor(b + [c]) == Xor2(Xor(b), c)
  {
    assert (b + [c])[..|b|] == b;
  }

  lemma {:induction false} XorHeader(a: uint8, b: uint8, rest: seq<uint8>)
    ensures Xor([a, b] + rest) == Xor2(Xor2(a, b), Xor(rest))
  {
    XorConcat([a, b], rest);
    XorSnoc([a], b);
    XorSingle(a);
    assert [a] + [b] == [a, b];
  }

  /** Replacing one byte by a different one always changes the checksum. */
  lemma {:induction false} XorUpdate(s: seq<uint8>, i: nat, b: uint8)
    requires i < |s| && b != s[i]
    ensures Xor(s[i := b]) != Xor(s)
  {
    var n := |s| - 1;
    if i == n {
      assert s[i := b][..n] == s[..n];
      if Xor2(Xor(s[..n]), b) == Xor2(Xor(s[..n]), s[n]) { XorCancel(Xor(s[..n]), b, s[n]); }
    } else {
      XorUpdate(s[..n], i, b);
      assert s[i := b][..n] == s[..n][i := b];
      if Xor2(Xor(s[..n][i := b]), s[n]) == Xor2(Xor(s[..n]), s[n]) {
        XorComm(Xor(s[..n][i := b]), s[n]);
        XorComm(Xor(s[..n]), s[n]);
        XorCancel(s[n], Xor(s[..n][i := b]), Xor(s[..n]));
      }
    }
  }

  /** What sendPacket puts on the wire for one packet. */
  function Frame(p: Packet): (f: seq<uint8>) {
    [0xAA, 0x55] + p + [Xor(p)]
  }

  /** The wire image of several packets, one after the other. */
  function Frames(ps: seq<Packet>): seq<uint8> {
    if ps == [] then [] else Frame(ps[0]) + Frames(ps[1..])
  }

  lemma {:induction false} FramesConcat(a: seq<Packet>, b: seq<Packet>)
    ensures Frames(a + b) == Frames(a) + Frames(b)
  {
    hide Frame;
    hide Xor2;
    hide Xor;
    if a == [] {
      assert a + b == b;
    } else {
      FramesConcat(a[1..], b);
      assert (a + b)[1..] == a[1..] + b;
      assert (Frame(a[0]) + Frames(a[1..])) + Frames(b) == Frame(a[0]) + (Frames(a[1..]) + Frames(b));
    }
  }

  lemma {:induction false} FramesSnoc(a: seq<Packet>, p: Packet)
    ensures Frames(a + [p]) == Frames(a) + Frame(p)
  {
    FramesConcat(a, [p]);
    assert Frames([p]) == Frame(p) + Frames([]);
  }
}
