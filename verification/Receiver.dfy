/** The receiving half of packet_handler.c as a machine on values, and what it promises:
    it refines a batch parser, delivers what was framed, detects corruption, resynchronises. */
module Receiver {
  import opened Words
  import opened Packets

  /** The receive state. Each constructor is one rxFn, with the variables that are live in it. */
  datatype Rx =
    | SeekAA
    | Seek55
    | SeekType
    | SeekSize(typ: uint8, size: uint8, sum: uint8)
    | InPayload(typ: uint8, sum: uint8, buf: Packet, left: nat)
    | SeekChecksum(typ: uint8, sum: uint8, buf: Packet)

  /** One byte from the line, with the answer initialize_buffer_fn gives should it be asked now. */
  datatype Input = Input(c: uint8, room: bool)

  /** Number of bytes read as payload for a received size byte: rx_bytes_to_read is a uint8
      that starts at size-4+2 and is decremented before it is tested. */
  function PayloadLength(size: uint8): (n: nat)
    ensures 1 <= n <= 256
    ensures 3 <= size as int ==> n == size as int - 2
  {
    var n := (size as int + 254) % 256;
    if n == 0 then 256 else n
  }

  function Step(ops: OpTable, rx: Rx, i: Input): (Rx, Status) {
    match rx
    case SeekAA => if i.c == 0xAA then (Seek55, SyncAA) else (SeekAA, Unsync)
    case Seek55 => if i.c == 0x55 then (SeekType, Sync55) else (SeekAA, Unsync)
    case SeekType =>
      if i.c >= TYPE_MAX then (SeekAA, Unsync)
      else if i.c !in ops then (SeekAA, UnknownType)
      else (SeekSize(i.c, ops[i.c], i.c), SyncType)
    case SeekSize(t, size, sum) =>
      if size != SIZE_ANY && size != i.c then (SeekAA, InvalidSize)
      else if !i.room then (SeekAA, RxBufferError)
      else (InPayload(t, Xor2(sum, i.c), [t, size], PayloadLength(i.c)), SyncSize)
    case InPayload(t, sum, buf, left) =>
      if left <= 1 then (SeekChecksum(t, Xor2(sum, i.c), buf + [i.c]), SyncPayloadComplete)
      else (InPayload(t, Xor2(sum, i.c), buf + [i.c], left - 1), SyncPayload)
    case SeekChecksum(t, sum, buf) =>
      if i.c == sum then (SeekAA, SyncChecksum) else (SeekAA, ChecksumError)
  }

  /** The packets handed to on_receive by this step: none, or the buffer just completed. */
  function Delivered(ops: OpTable, rx: Rx, i: Input): seq<Packet> {
    if rx.SeekChecksum? && Step(ops, rx, i).1 == SyncChecksum then [rx.buf] else []
  }

  datatype Result = Result(rx: Rx, out: seq<Packet>)

  /** Feeds a byte string, one byte at a time. */
  function Run(ops: OpTable, rx: Rx, s: seq<Input>): Result
    decreases |s|
  {
    if s == [] then Result(rx, [])
    else
      var r := Run(ops, Step(ops, rx, s[0]).0, s[1..]);
      Result(r.rx, Delivered(ops, rx, s[0]) + r.out)
  }

  /** on_receive runs exactly on the bytes that return SyncChecksum. */
  lemma {:induction false} DeliveryIsSyncChecksum(ops: OpTable, rx: Rx, i: Input)
    ensures |Delivered(ops, rx, i)| == 1 <==> Step(ops, rx, i).1 == SyncChecksum
    ensures Step(ops, rx, i).1 != SyncChecksum ==> Delivered(ops, rx, i) == []
  {
  }

  lemma {:induction false} RunConcat(ops: OpTable, rx: Rx, a: seq<Input>, b: seq<Input>)
    ensures Run(ops, rx, a + b) ==
            Result(Run(ops, Run(ops, rx, a).rx, b).rx, Run(ops, rx, a).out + Run(ops, Run(ops, rx, a).rx, b).out)
    decreases |a|
  {
    hide Step;
    if a == [] {
      assert a + b == b;
    } else {
      var next, first := Step(ops, rx, a[0]).0, Delivered(ops, rx, a[0]);
      RunConcat(ops, next, a[1..], b);
      RunCons(ops, rx, a, next, first);
      RunCons(ops, rx, a + b, next, first);
      assert (a + b)[1..] == a[1..] + b;
      var r := Run(ops, next, a[1..]);
      ConcatAssoc(first, r.out, Run(ops, r.rx, b).out);
    }
  }

  lemma {:induction false} ConcatAssoc<T>(a: seq<T>, b: seq<T>, c: seq<T>)
    ensures a + (b + c) == (a + b) + c
  {
  }

  lemma {:induction false} RunCons(ops: OpTable, rx: Rx, s: seq<Input>, next: Rx, first: seq<Packet>)
    requires s != [] && next == Step(ops, rx, s[0]).0 && first == Delivered(ops, rx, s[0])
    ensures Run(ops, rx, s) == Result(Run(ops, next, s[1..]).rx, first + Run(ops, next, s[1..]).out)
  {
  }

  function Bytes(s: seq<Input>): (b: seq<uint8>)
    ensures |b| == |s| && forall i | 0 <= i < |s| :: b[i] == s[i].c
  {
    seq(|s|, i requires 0 <= i < |s| => s[i].c)
  }

  // ---------------------------------------------------------------- payload

  lemma {:induction false} BytesCons(s: seq<Input>)
    requires s != []
    ensures Bytes(s) == [s[0].c] + Bytes(s[1..])
    ensures Xor(Bytes(s)) == Xor2(s[0].c, Xor(Bytes(s[1..])))
  {
    XorConcat([s[0].c], Bytes(s[1..]));
    XorSingle(s[0].c);
  }

  lemma {:induction false} PayloadByte(ops: OpTable, t: uint8, sum: uint8, buf: Packet, left: nat, s: seq<Input>)
    requires 1 < left && s != []
    ensures Run(ops, InPayload(t, sum, buf, left), s) ==
            Run(ops, InPayload(t, Xor2(sum, s[0].c), buf + [s[0].c], left - 1), s[1..])
  {
    RunStep(ops, InPayload(t, sum, buf, left), s);
  }

  /** Fewer bytes than the payload needs: they are all stored, nothing else happens. */
  lemma {:induction false} RunPayloadPart(ops: OpTable, t: uint8, sum: uint8, buf: Packet, left: nat, s: seq<Input>)
    requires |s| < left
    ensures Run(ops, InPayload(t, sum, buf, left), s) ==
            Result(InPayload(t, Xor2(sum, Xor(Bytes(s))), buf + Bytes(s), left - |s|), [])
    decreases |s|
  {
    hide Step;
    hide Delivered;
    hide Xor2;
    if s == [] {
      XorZero(sum);
      assert buf + Bytes(s) == buf;
    } else {
      var c, tail := s[0].c, s[1..];
      PayloadByte(ops, t, sum, buf, left, s);
      RunPayloadPart(ops, t, Xor2(sum, c), buf + [c], left - 1, tail);
      BytesCons(s);
      XorAssoc(sum, c, Xor(Bytes(tail)));
      ConcatAssoc(buf, [c], Bytes(tail));
    }
  }

  /** Exactly the payload: the receiver now waits for the checksum. */
  lemma {:induction false} RunPayload(ops: OpTable, t: uint8, sum: uint8, buf: Packet, left: nat, s: seq<Input>)
    requires |s| == left > 0
    ensures Run(ops, InPayload(t, sum, buf, left), s) ==
            Result(SeekChecksum(t, Xor2(sum, Xor(Bytes(s))), buf + Bytes(s)), [])
  {
    hide Xor2;
    var init, last := s[..left - 1], s[left - 1];
    var b := Bytes(init);
    RunPayloadPart(ops, t, sum, buf, left, init);
    RunConcat(ops, InPayload(t, sum, buf, left), init, [last]);
    RunLast(ops, InPayload(t, Xor2(sum, Xor(b)), buf + b, 1), last);
    assert s == init + [last];
    assert Bytes(s) == b + [last.c];
    XorSnoc(b, last.c);
    XorAssoc(sum, Xor(b), last.c);
    assert buf + Bytes(s) == buf + b + [last.c];
  }

  // ---------------------------------------------------------------- batch parser

  /** The packet that a complete candidate frame carries: the buffer is headed by the size of the
      operation, which differs from the received one only for SIZE_ANY. */
  function Candidate(ops: OpTable, s: seq<Input>): (p: Packet)
    requires |s| >= 4 && s[2].c in ops
    requires |s| >= 4 + PayloadLength(s[3].c)
  {
    [s[2].c, ops[s[2].c]] + Bytes(s[4..4 + PayloadLength(s[3].c)])
  }

  /** Looks at the whole string: finds a header, then judges the frame that starts there. */
  function Parse(ops: OpTable, s: seq<Input>): seq<Packet> {
    if |s| < 5 then []
    else if s[0].c != 0xAA then Parse(ops, s[1..])
    else if s[1].c != 0x55 then Parse(ops, s[2..])
    else if s[2].c >= TYPE_MAX || s[2].c !in ops then Parse(ops, s[3..])
    else if (ops[s[2].c] != SIZE_ANY && ops[s[2].c] != s[3].c) || !s[3].room then Parse(ops, s[4..])
    else
      var n := 4 + PayloadLength(s[3].c);
      if |s| <= n then []
      else if s[n].c == Xor(Bytes(s[2..n])) then [Candidate(ops, s)] + Parse(ops, s[n + 1..])
      else Parse(ops, s[n + 1..])
  }

  /** One step of Run from a state, spelled for a nonempty string. */
  lemma {:induction false} RunStep(ops: OpTable, rx: Rx, s: seq<Input>)
    requires s != [] && !rx.SeekChecksum?
    ensures Run(ops, rx, s) == Run(ops, Step(ops, rx, s[0]).0, s[1..])
  {
    var r := Run(ops, Step(ops, rx, s[0]).0, s[1..]);
    assert Delivered(ops, rx, s[0]) == [];
    assert [] + r.out == r.out;
  }

  /** A header with room: the receiver collects the payload of the string. */
  lemma {:induction false} RunHeader(ops: OpTable, s: seq<Input>)
    requires |s| >= 4 && s[0].c == 0xAA && s[1].c == 0x55 && s[2].c < TYPE_MAX && s[2].c in ops
    requires ops[s[2].c] == SIZE_ANY || ops[s[2].c] == s[3].c
    requires s[3].room
    ensures Run(ops, SeekAA, s) ==
            Run(ops, InPayload(s[2].c, Xor2(s[2].c, s[3].c), [s[2].c, ops[s[2].c]], PayloadLength(s[3].c)), s[4..])
  {
    RunStep(ops, SeekAA, s);
    RunStep(ops, Seek55, s[1..]);
    RunStep(ops, SeekType, s[2..]);
    RunStep(ops, SeekSize(s[2].c, ops[s[2].c], s[2].c), s[3..]);
    assert s[1..][1..] == s[2..] && s[2..][1..] == s[3..] && s[3..][1..] == s[4..];
  }

  lemma {:induction false} RunLast(ops: OpTable, rx: Rx, i: Input)
    ensures Run(ops, rx, [i]) == Result(Step(ops, rx, i).0, Delivered(ops, rx, i))
  {
    assert [i][1..] == [];
    assert Delivered(ops, rx, i) + [] == Delivered(ops, rx, i);
  }

  /** The bytes of a candidate frame: sync, type, size, payload, checksum. */
  ghost predicate IsCandidate(ops: OpTable, s: seq<Input>, t: uint8, size: uint8, body: seq<uint8>, sum: uint8) {
    && t in ops && t < TYPE_MAX && (ops[t] == SIZE_ANY || ops[t] == size)
    && |body| == PayloadLength(size)
    && Bytes(s) == [0xAA, 0x55, t, size] + body + [sum]
    && |s| > 3 && s[3].room
  }

  lemma {:induction false} CandidateBeforeSum(ops: OpTable, s: seq<Input>, t: uint8, size: uint8, body: seq<uint8>,
                                              sum: uint8)
    requires IsCandidate(ops, s, t, size, body, sum)
    ensures Run(ops, SeekAA, s[..|s| - 1]) == Result(SeekChecksum(t, Xor([t, size] + body), [t, ops[t]] + body), [])
    ensures s[|s| - 1].c == sum
  {
    hide Xor2;
    var h, w := s[..|s| - 1], [0xAA, 0x55, t, size] + body + [sum];
    assert forall i | 0 <= i < |s| :: s[i].c == w[i];
    assert Bytes(h[4..]) == body;
    RunHeader(ops, h);
    RunPayload(ops, t, Xor2(t, size), [t, ops[t]], PayloadLength(size), h[4..]);
    XorHeader(t, size, body);
  }

  /** A complete candidate frame is delivered if its last byte is the XOR from type through payload,
      and is thrown away otherwise. Either way the receiver is idle after it. */
  lemma {:induction false} RunCandidate(ops: OpTable, s: seq<Input>, t: uint8, size: uint8, body: seq<uint8>,
                                        sum: uint8)
    requires IsCandidate(ops, s, t, size, body, sum)
    ensures Run(ops, SeekAA, s) ==
            Result(SeekAA, if sum == Xor([t, size] + body) then [[t, ops[t]] + body] else [])
    ensures Step(ops, Run(ops, SeekAA, s[..|s| - 1]).rx, s[|s| - 1]).1 ==
            if sum == Xor([t, size] + body) then SyncChecksum else ChecksumError
  {
    hide Xor2;
    var h, last := s[..|s| - 1], s[|s| - 1];
    CandidateBeforeSum(ops, s, t, size, body, sum);
    assert s == h + [last];
    RunConcat(ops, SeekAA, h, [last]);
    RunLast(ops, Run(ops, SeekAA, h).rx, last);
  }

  /** The byte-at-a-time receiver refines the batch parser, for every operation table. */
  lemma {:induction false} RunIsParse(ops: OpTable, s: seq<Input>)
    ensures Run(ops, SeekAA, s).out == Parse(ops, s)
    decreases |s|, 2
  {
    if s == [] {
    } else if s[0].c != 0xAA {
      RunStep(ops, SeekAA, s);
      RunIsParse(ops, s[1..]);
    } else {
      RunStep(ops, SeekAA, s);
      if |s| >= 2 { RunAfterAA(ops, s); }
    }
  }

  /** What a status tells: SyncChecksum exactly on the bytes that complete a packet for the parser, which is the one
      handed to on_receive; on all other bytes the parser has found nothing new. */
  lemma {:induction false} SyncChecksumMarksParse(ops: OpTable, s: seq<Input>, i: Input)
    ensures var rx := Run(ops, SeekAA, s).rx;
            && Parse(ops, s + [i]) == Parse(ops, s) + Delivered(ops, rx, i)
            && (|Parse(ops, s + [i])| == |Parse(ops, s)| + 1 <==> Step(ops, rx, i).1 == SyncChecksum)
            && (Parse(ops, s + [i]) == Parse(ops, s) <==> Step(ops, rx, i).1 != SyncChecksum)
  {
    hide Step;
    var rx := Run(ops, SeekAA, s).rx;
    DeliveryIsSyncChecksum(ops, rx, i);
    RunIsParse(ops, s);
    RunIsParse(ops, s + [i]);
    RunConcat(ops, SeekAA, s, [i]);
    RunLast(ops, rx, i);
    hide Delivered;
    hide Parse;
    hide Run;
    assert Parse(ops, s) + [] == Parse(ops, s);
  }

  lemma {:induction false} RunAfterAA(ops: OpTable, s: seq<Input>)
    requires |s| >= 2 && s[0].c == 0xAA
    ensures Run(ops, Seek55, s[1..]).out == Parse(ops, s)
    decreases |s|, 1
  {
    hide Xor2;
    RunStep(ops, Seek55, s[1..]);
    assert s[1..][1..] == s[2..];
    if s[1].c != 0x55 {
      RunIsParse(ops, s[2..]);
    } else if |s| >= 3 {
      assert s[2..][1..] == s[3..];
      RunStep(ops, SeekType, s[2..]);
      if s[2].c >= TYPE_MAX || s[2].c !in ops {
        RunIsParse(ops, s[3..]);
      } else if |s| >= 4 {
        assert s[3..][1..] == s[4..];
        RunStep(ops, SeekSize(s[2].c, ops[s[2].c], s[2].c), s[3..]);
        if (ops[s[2].c] != SIZE_ANY && ops[s[2].c] != s[3].c) || !s[3].room {
          RunIsParse(ops, s[4..]);
        } else {
          RunStep(ops, SeekAA, s);
          RunAfterHeader(ops, s);
        }
      }
    }
  }

  /** A frame that has not arrived entirely delivers nothing. */
  lemma {:induction false} RunCut(ops: OpTable, s: seq<Input>)
    requires |s| >= 4 && s[0].c == 0xAA && s[1].c == 0x55 && s[2].c < TYPE_MAX && s[2].c in ops
    requires ops[s[2].c] == SIZE_ANY || ops[s[2].c] == s[3].c
    requires s[3].room && |s| <= 4 + PayloadLength(s[3].c)
    ensures Run(ops, SeekAA, s).out == []
  {
    var t, size := s[2].c, s[3].c;
    RunHeader(ops, s);
    if |s| < 4 + PayloadLength(size) {
      RunPayloadPart(ops, t, Xor2(t, size), [t, ops[t]], PayloadLength(size), s[4..]);
    } else {
      RunPayload(ops, t, Xor2(t, size), [t, ops[t]], PayloadLength(size), s[4..]);
    }
  }

  lemma {:induction false} RunAfterHeader(ops: OpTable, s: seq<Input>)
    requires |s| >= 4 && s[0].c == 0xAA && s[1].c == 0x55 && s[2].c < TYPE_MAX && s[2].c in ops
    requires ops[s[2].c] == SIZE_ANY || ops[s[2].c] == s[3].c
    requires s[3].room
    ensures Run(ops, SeekAA, s).out == Parse(ops, s)
    decreases |s|, 0
  {
    hide Step;
    hide Xor2;
    ParseAtHeader(ops, s);
    hide Parse;
    hide Run;
    var n := 4 + PayloadLength(s[3].c);
    if |s| <= n {
      RunCut(ops, s);
    } else {
      hide Candidate;
      FrontFrame(ops, s, n);
      var f := s[..n + 1];
      RunIsParse(ops, s[n + 1..]);
      RunWholeThenRest(ops, f, s[n + 1..]);
    }
  }

  /** The frame at the front of a string. */
  lemma {:induction false} FrontFrame(ops: OpTable, s: seq<Input>, n: nat)
    requires |s| >= 4 && s[2].c in ops && n == 4 + PayloadLength(s[3].c) < |s|
    ensures s == s[..n + 1] + s[n + 1..]
    ensures s[..n + 1][2..n] == s[2..n] && Candidate(ops, s[..n + 1]) == Candidate(ops, s)
  {
    assert s[..n + 1][4..n] == s[4..n];
  }

  /** The parser at a header for which there is a buffer. */
  lemma {:induction false} ParseAtHeader(ops: OpTable, s: seq<Input>)
    requires |s| >= 4 && s[0].c == 0xAA && s[1].c == 0x55 && s[2].c < TYPE_MAX && s[2].c in ops
    requires ops[s[2].c] == SIZE_ANY || ops[s[2].c] == s[3].c
    requires s[3].room
    ensures var n := 4 + PayloadLength(s[3].c);
            if |s| <= n then Parse(ops, s) == []
            else
              Parse(ops, s) ==
              (if s[n].c == Xor(Bytes(s[2..n])) then [Candidate(ops, s)] else []) + Parse(ops, s[n + 1..])
  {
    hide Xor;
    hide Xor2;
  }

  /** A frame that has arrived entirely is judged by its checksum. */
  lemma {:induction false} RunWhole(ops: OpTable, s: seq<Input>)
    requires |s| >= 4 && s[0].c == 0xAA && s[1].c == 0x55 && s[2].c < TYPE_MAX && s[2].c in ops
    requires ops[s[2].c] == SIZE_ANY || ops[s[2].c] == s[3].c
    requires s[3].room && |s| == 5 + PayloadLength(s[3].c)
    ensures Run(ops, SeekAA, s) ==
            Result(SeekAA, if s[|s| - 1].c == Xor(Bytes(s[2..|s| - 1])) then [Candidate(ops, s)] else [])
  {
    hide Xor2;
    var n := |s| - 1;
    var body := Bytes(s[4..n]);
    WholeShape(s, n);
    RunCandidate(ops, s, s[2].c, s[3].c, body, s[n].c);
  }

  lemma {:induction false} WholeShape(s: seq<Input>, n: nat)
    requires 4 <= n == |s| - 1 && s[0].c == 0xAA && s[1].c == 0x55
    ensures Bytes(s[2..n]) == [s[2].c, s[3].c] + Bytes(s[4..n])
    ensures Bytes(s) == [0xAA, 0x55, s[2].c, s[3].c] + Bytes(s[4..n]) + [s[n].c]
  {
  }

  lemma {:induction false} RunWholeThenRest(ops: OpTable, f: seq<Input>, rest: seq<Input>)
    requires |f| >= 4 && f[0].c == 0xAA && f[1].c == 0x55 && f[2].c < TYPE_MAX && f[2].c in ops
    requires ops[f[2].c] == SIZE_ANY || ops[f[2].c] == f[3].c
    requires f[3].room && |f| == 5 + PayloadLength(f[3].c)
    ensures Run(ops, SeekAA, f + rest).out ==
            (if f[|f| - 1].c == Xor(Bytes(f[2..|f| - 1])) then [Candidate(ops, f)] else []) + Run(ops, SeekAA, rest).out
  {
    hide Xor2;
    RunWhole(ops, f);
    RunConcat(ops, SeekAA, f, rest);
  }

  /** However the stream is cut into chunks, the deliveries are those of the parser on the whole. */
  function RunChunks(ops: OpTable, rx: Rx, chunks: seq<seq<Input>>): Result
    decreases |chunks|
  {
    if chunks == [] then Result(rx, [])
    else
      var r := Run(ops, rx, chunks[0]);
      var rest := RunChunks(ops, r.rx, chunks[1..]);
      Result(rest.rx, r.out + rest.out)
  }

  function Flatten(chunks: seq<seq<Input>>): seq<Input> {
    if chunks == [] then [] else chunks[0] + Flatten(chunks[1..])
  }

  lemma {:induction false} ChunksAreOneRun(ops: OpTable, rx: Rx, chunks: seq<seq<Input>>)
    ensures RunChunks(ops, rx, chunks) == Run(ops, rx, Flatten(chunks))
    decreases |chunks|
  {
    if chunks != [] {
      ChunksAreOneRun(ops, Run(ops, rx, chunks[0]).rx, chunks[1..]);
      RunConcat(ops, rx, chunks[0], Flatten(chunks[1..]));
    }
  }

  lemma {:induction false} ReceiverRefinesParser(ops: OpTable, chunks: seq<seq<Input>>)
    ensures RunChunks(ops, SeekAA, chunks).out == Parse(ops, Flatten(chunks))
  {
    ChunksAreOneRun(ops, SeekAA, chunks);
    RunIsParse(ops, Flatten(chunks));
  }
}
