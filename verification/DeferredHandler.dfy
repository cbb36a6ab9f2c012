/** deferred_packet_handler.c as it stands: packets are received in place into the slot at the end
    of the ring of their type, while earlier slots still wait in the list of pending packets. */
module DeferredHandlers {
  import opened Words
  import opened Packets
  import opened Ring
  import opened Receiver
  import opened Delivery
  import opened Deferred
  import opened PacketHandlers

  /** packet_infos[t]: the buffers of one type and the ring of those in use. */
  datatype Info = Info(size: uint8, buffers: seq<array<uint8>>, max: nat, count: nat, start: nat, end: nat)
  {
    ghost predicate Valid() {
      && |buffers| == max <= PER_TYPE_MAX
      && (if max == 0 then start == end == count == 0 else Indices(max, start, end, count))
    }

    /** The buffers in use, oldest first. */
    ghost function InUse(): seq<array<uint8>>
      requires Valid()
    {
      if max == 0 then [] else Slots(buffers, start, count)
    }
  }

  /** The packets of one type, in order. */
  ghost function Only(q: seq<array<uint8>>, owner: map<array<uint8>, uint8>, t: uint8): seq<array<uint8>> {
    if q == [] then []
    else if q[0] in owner && owner[q[0]] == t then [q[0]] + Only(q[1..], owner, t)
    else Only(q[1..], owner, t)
  }

  lemma {:induction false} OnlyConcat(a: seq<array<uint8>>, b: seq<array<uint8>>, owner: map<array<uint8>, uint8>,
                                      t: uint8)
    ensures Only(a + b, owner, t) == Only(a, owner, t) + Only(b, owner, t)
    decreases |a|
  {
    if a == [] {
      assert a + b == b;
    } else {
      OnlyConcat(a[1..], b, owner, t);
      assert (a + b)[1..] == a[1..] + b;
    }
  }

  lemma {:induction false} OnlySnoc(q: seq<array<uint8>>, p: array<uint8>, owner: map<array<uint8>, uint8>, t: uint8)
    ensures Only(q + [p], owner, t) ==
            if p in owner && owner[p] == t then Only(q, owner, t) + [p] else Only(q, owner, t)
  {
    OnlyConcat(q, [p], owner, t);
    assert [p][1..] == [];
    assert Only(q, owner, t) + [] == Only(q, owner, t);
  }

  /** Only selects: what it contains is in the queue. */
  lemma {:induction false} OnlyHas(q: seq<array<uint8>>, p: array<uint8>, owner: map<array<uint8>, uint8>)
    requires p in q && p in owner
    ensures p in Only(q, owner, owner[p])
    decreases |q|
  {
    if q[0] != p { OnlyHas(q[1..], p, owner); }
  }

  /** The bytes in some buffers. */
  ghost function Contents(q: seq<array<uint8>>): (ps: seq<Packet>)
    reads q
    ensures |ps| == |q| && forall i | 0 <= i < |q| :: ps[i] == q[i][..]
  {
    seq(|q|, i requires 0 <= i < |q| reads q => q[i][..])
  }

  /** Each waiting buffer still starts with its type. */
  ghost predicate Headed(q: seq<array<uint8>>, owner: map<array<uint8>, uint8>)
    reads q
  {
    forall i | 0 <= i < |q| :: q[i].Length >= 4 && q[i] in owner && q[i][0] == owner[q[i]]
  }

  lemma {:induction false} HeadOf(q: seq<array<uint8>>, owner: map<array<uint8>, uint8>, i: nat)
    requires Headed(q, owner) && i < |q|
    ensures q[i] in owner && q[i].Length >= 4 && q[i][0] == owner[q[i]]
  {
  }

  lemma {:induction false} NextContents(q: seq<array<uint8>>, i: nat)
    requires i < |q|
    ensures Contents(q)[..i + 1] == Contents(q)[..i] + [q[i][..]]
  {
  }

  lemma {:induction false} EmptyHeaded(owner: map<array<uint8>, uint8>)
    ensures Headed([], owner) && Contents([]) == []
  {
  }

  lemma {:induction false} SnocContents(q: seq<array<uint8>>, p: array<uint8>, owner: map<array<uint8>, uint8>)
    requires Headed(q, owner) && p.Length >= 4 && p in owner && p[0] == owner[p]
    ensures Contents(q + [p]) == Contents(q) + [p[..]] && Headed(q + [p], owner)
  {
  }

  /** Counting the packets of a type is counting the buffers of that type. */
  lemma {:induction false} CountIsOnly(q: seq<array<uint8>>, owner: map<array<uint8>, uint8>, t: uint8)
    requires forall i | 0 <= i < |q| :: q[i] in owner && q[i].Length > 0 && q[i][0] == owner[q[i]]
    ensures Count(Contents(q), t) == |Only(q, owner, t)|
    decreases |q|
  {
    hide Only;
    hide Count;
    if q == [] {
      EmptyCounts(owner, t);
    } else {
      var n := |q| - 1;
      var a, p := q[..n], q[n];
      CountIsOnly(a, owner, t);
      OnlySnoc(a, p, owner, t);
      CountSnoc(Contents(a), p[..], t);
      assert q == a + [p];
      assert Contents(q) == Contents(a) + [p[..]];
    }
  }

  lemma {:induction false} EmptyCounts(owner: map<array<uint8>, uint8>, t: uint8)
    ensures Count(Contents([]), t) == |Only([], owner, t)| == 0
  {
  }

  /** The buffers of one type: of the installed size, all different, and owned by the type. */
  ghost predicate Owned(t: uint8, info: Info, owner: map<array<uint8>, uint8>) {
    && info.Valid()
    && (forall i | 0 <= i < info.max ::
          info.buffers[i].Length == info.size as int && info.buffers[i] in owner && owner[info.buffers[i]] == t)
    && (forall i, j | 0 <= i < j < info.max :: info.buffers[i] != info.buffers[j])
  }

  /** A waiting buffer has an installed owner, and its size. */
  ghost predicate Waiting(ops: OpTable, p: array<uint8>, owner: map<array<uint8>, uint8>) {
    p in owner && owner[p] in ops && p.Length == ops[owner[p]] as int
  }

  ghost predicate AllWaiting(ops: OpTable, q: seq<array<uint8>>, owner: map<array<uint8>, uint8>) {
    |q| <= PENDING_MAX && forall i | 0 <= i < |q| :: Waiting(ops, q[i], owner)
  }

  /** The ring of one type: the waiting buffers of the type, in order, are exactly the slots in use. */
  ghost predicate RingOf(ops: OpTable, caps: Caps, info: Info, q: seq<array<uint8>>, owner: map<array<uint8>, uint8>,
                         t: uint8)
  {
    && Owned(t, info, owner) && Only(q, owner, t) == info.InUse()
    && t in ops && ops[t] == info.size && t in caps && caps[t] == info.max
  }

  /** The rings of all types, over one queue of buffers waiting. */
  ghost predicate Pool(ops: OpTable, caps: Caps, infos: map<uint8, Info>, q: seq<array<uint8>>,
                       owner: map<array<uint8>, uint8>)
  {
    && ops.Keys == infos.Keys == caps.Keys && AllWaiting(ops, q, owner)
    && forall t | t in infos :: RingOf(ops, caps, infos[t], q, owner, t)
  }

  lemma {:induction false} PoolRing(ops: OpTable, caps: Caps, infos: map<uint8, Info>, q: seq<array<uint8>>,
                                    owner: map<array<uint8>, uint8>, t: uint8)
    requires Pool(ops, caps, infos, q, owner) && t in infos
    ensures RingOf(ops, caps, infos[t], q, owner, t)
  {
  }

  lemma {:induction false} PoolWaiting(ops: OpTable, caps: Caps, infos: map<uint8, Info>, q: seq<array<uint8>>,
                                       owner: map<array<uint8>, uint8>)
    requires Pool(ops, caps, infos, q, owner)
    ensures ops.Keys == infos.Keys == caps.Keys && AllWaiting(ops, q, owner)
  {
  }

  lemma {:induction false} PoolOf(ops: OpTable, caps: Caps, infos: map<uint8, Info>, q: seq<array<uint8>>,
                                  owner: map<array<uint8>, uint8>)
    requires ops.Keys == infos.Keys == caps.Keys && AllWaiting(ops, q, owner)
    requires forall t | t in infos :: RingOf(ops, caps, infos[t], q, owner, t)
    ensures Pool(ops, caps, infos, q, owner)
  {
  }

  /** BUFFER_PUT on the ring of a type. */
  function Put(info: Info): Info
    requires info.Valid() && info.count < info.max
  {
    info.(end := Wrap(info.end + 1, info.max), count := info.count + 1)
  }

  /** BUFFER_GET on the ring of a type. */
  function Get(info: Info): Info
    requires info.Valid() && info.count > 0
  {
    info.(start := Wrap(info.start + 1, info.max), count := info.count - 1)
  }

  lemma {:induction false} PoolInfo(ops: OpTable, caps: Caps, infos: map<uint8, Info>, q: seq<array<uint8>>,
                                    owner: map<array<uint8>, uint8>, t: uint8)
    requires Pool(ops, caps, infos, q, owner) && t in infos
    ensures infos[t].Valid() && t in ops && ops[t] == infos[t].size && t in caps && caps[t] == infos[t].max
    ensures |q| <= PENDING_MAX
    ensures infos[t].count < infos[t].max ==>
      var p := infos[t].buffers[infos[t].end]; p.Length == ops[t] as int && p in owner && owner[p] == t && p !in q
  {
    PoolRing(ops, caps, infos, q, owner, t);
    PoolWaiting(ops, caps, infos, q, owner);
    hide Pool;
    hide Only;
    var info := infos[t];
    if info.count < info.max { EndNotQueued(q, owner, t, info); }
  }

  /** The slot at the end of a ring with room is not waiting. */
  lemma {:induction false} EndNotQueued(q: seq<array<uint8>>, owner: map<array<uint8>, uint8>, t: uint8, info: Info)
    requires Owned(t, info, owner) && info.count < info.max && Only(q, owner, t) == info.InUse()
    ensures info.buffers[info.end] !in q
  {
    EndIsFree(info.buffers, info.start, info.end, info.count);
    if info.buffers[info.end] in q { OnlyHas(q, info.buffers[info.end], owner); }
  }

  lemma {:induction false} RingPut(ops: OpTable, caps: Caps, info: Info, q: seq<array<uint8>>,
                                   owner: map<array<uint8>, uint8>, t: uint8)
    requires RingOf(ops, caps, info, q, owner, t) && info.count < info.max
    ensures RingOf(ops, caps, Put(info), q + [info.buffers[info.end]], owner, t)
    ensures Waiting(ops, info.buffers[info.end], owner) && owner[info.buffers[info.end]] == t
  {
    AdvanceAppends(info.buffers, info.start, info.end, info.count);
    OnlySnoc(q, info.buffers[info.end], owner, t);
    hide Only;
  }

  /** A packet of another type leaves a ring alone. */
  lemma {:induction false} RingPutOther(ops: OpTable, caps: Caps, info: Info, q: seq<array<uint8>>, p: array<uint8>,
                                        owner: map<array<uint8>, uint8>, t: uint8)
    requires RingOf(ops, caps, info, q, owner, t) && p in owner && owner[p] != t
    ensures RingOf(ops, caps, info, q + [p], owner, t)
  {
    OnlySnoc(q, p, owner, t);
    hide Only;
    hide Info.InUse;
  }

  lemma {:induction false} PoolPut(ops: OpTable, caps: Caps, infos: map<uint8, Info>, q: seq<array<uint8>>,
                                   owner: map<array<uint8>, uint8>, t: uint8)
    requires Pool(ops, caps, infos, q, owner) && t in infos && infos[t].Valid() && infos[t].count < infos[t].max
    requires |q| < PENDING_MAX
    ensures Pool(ops, caps, infos[t := Put(infos[t])], q + [infos[t].buffers[infos[t].end]], owner)
  {
    hide Waiting;
    hide RingOf;
    var p, after := infos[t].buffers[infos[t].end], infos[t := Put(infos[t])];
    PoolRing(ops, caps, infos, q, owner, t);
    PoolWaiting(ops, caps, infos, q, owner);
    RingPut(ops, caps, infos[t], q, owner, t);
    OwnerKnown(ops, p, owner);
    forall u | u in after ensures RingOf(ops, caps, after[u], q + [p], owner, u) {
      if u != t {
        PoolRing(ops, caps, infos, q, owner, u);
        hide Pool;
        RingPutOther(ops, caps, infos[u], q, p, owner, u);
      }
    }
    hide Pool;
    PoolOf(ops, caps, after, q + [p], owner);
  }

  lemma {:induction false} OwnerKnown(ops: OpTable, p: array<uint8>, owner: map<array<uint8>, uint8>)
    requires Waiting(ops, p, owner)
    ensures p in owner && owner[p] in ops
  {
  }

  /** The oldest waiting packet is the first in use of its type. */
  lemma {:induction false} FrontIsStart(ops: OpTable, caps: Caps, infos: map<uint8, Info>, q: seq<array<uint8>>,
                                        owner: map<array<uint8>, uint8>)
    requires Pool(ops, caps, infos, q, owner) && q != []
    ensures q[0] in owner && owner[q[0]] in infos
    ensures var info := infos[owner[q[0]]]; info.Valid() && info.count > 0 && q[0] == info.buffers[info.start]
  {
    PoolWaiting(ops, caps, infos, q, owner);
    assert Waiting(ops, q[0], owner);
    var info := infos[owner[q[0]]];
    PoolRing(ops, caps, infos, q, owner, owner[q[0]]);
    hide Pool;
    assert Only(q, owner, owner[q[0]])[0] == q[0];
    GetRemoves(info.buffers, info.start, info.end, info.count);
  }

  lemma {:induction false} PoolLength(ops: OpTable, caps: Caps, infos: map<uint8, Info>, q: seq<array<uint8>>,
                                      owner: map<array<uint8>, uint8>)
    requires Pool(ops, caps, infos, q, owner)
    ensures Pool(ops, caps, infos, q[0..], owner) && |q| <= PENDING_MAX
  {
    assert q[0..] == q;
  }

  lemma {:induction false} RingGet(ops: OpTable, caps: Caps, info: Info, q: seq<array<uint8>>,
                                   owner: map<array<uint8>, uint8>, t: uint8)
    requires RingOf(ops, caps, info, q, owner, t) && info.count > 0 && q != [] && q[0] in owner && owner[q[0]] == t
    ensures RingOf(ops, caps, Get(info), q[1..], owner, t)
  {
    GetInUse(info);
    OnlyTail(q, owner, t);
    hide Info.InUse;
    hide Only;
  }

  lemma {:induction false} RingGetOther(ops: OpTable, caps: Caps, info: Info, q: seq<array<uint8>>,
                                        owner: map<array<uint8>, uint8>, t: uint8)
    requires RingOf(ops, caps, info, q, owner, t) && q != [] && q[0] in owner && owner[q[0]] != t
    ensures RingOf(ops, caps, info, q[1..], owner, t)
  {
    hide Info.InUse;
    hide Owned;
  }

  lemma {:induction false} GetInUse(info: Info)
    requires info.Valid() && info.count > 0
    ensures Get(info).Valid() && info.InUse()[0] == info.buffers[info.start] && Get(info).InUse() == info.InUse()[1..]
  {
    GetRemoves(info.buffers, info.start, info.end, info.count);
  }

  lemma {:induction false} OnlyTail(q: seq<array<uint8>>, owner: map<array<uint8>, uint8>, t: uint8)
    requires q != [] && q[0] in owner && owner[q[0]] == t
    ensures Only(q, owner, t) != [] && Only(q, owner, t)[0] == q[0] && Only(q, owner, t)[1..] == Only(q[1..], owner, t)
  {
  }

  lemma {:induction false} PoolGet(ops: OpTable, caps: Caps, infos: map<uint8, Info>, q: seq<array<uint8>>,
                                   owner: map<array<uint8>, uint8>, t: uint8)
    requires Pool(ops, caps, infos, q, owner) && q != [] && q[0] in owner && owner[q[0]] == t
    requires t in infos && infos[t].Valid() && infos[t].count > 0
    ensures Pool(ops, caps, infos[t := Get(infos[t])], q[1..], owner)
  {
    hide Waiting;
    hide RingOf;
    var after := infos[t := Get(infos[t])];
    PoolRing(ops, caps, infos, q, owner, t);
    PoolWaiting(ops, caps, infos, q, owner);
    RingGet(ops, caps, infos[t], q, owner, t);
    forall u | u in after ensures RingOf(ops, caps, after[u], q[1..], owner, u) {
      if u != t {
        PoolRing(ops, caps, infos, q, owner, u);
        hide Pool;
        RingGetOther(ops, caps, infos[u], q, owner, u);
      }
    }
    hide Pool;
    PoolOf(ops, caps, after, q[1..], owner);
  }

  // ---------------------------------------------------------------- the rings add up

  /** The packets in the rings of the types below n. */
  ghost function InRings(infos: map<uint8, Info>, n: nat): nat
    requires n <= 20
  {
    if n == 0 then 0
    else InRings(infos, n - 1) + if (n - 1) as uint8 in infos then infos[(n - 1) as uint8].count else 0
  }

  ghost function OnlySum(q: seq<array<uint8>>, owner: map<array<uint8>, uint8>, n: nat): nat
    requires n <= 20
  {
    if n == 0 then 0 else OnlySum(q, owner, n - 1) + |Only(q, owner, (n - 1) as uint8)|
  }

  lemma {:induction false} OnlySumCons(q: seq<array<uint8>>, owner: map<array<uint8>, uint8>, n: nat)
    requires n <= 20 && q != [] && q[0] in owner
    ensures OnlySum(q, owner, n) == OnlySum(q[1..], owner, n) + if (owner[q[0]] as int) < n then 1 else 0
    decreases n
  {
    if n > 0 { OnlySumCons(q, owner, n - 1); }
  }

  lemma {:induction false} OnlySumEmpty(owner: map<array<uint8>, uint8>, n: nat)
    requires n <= 20
    ensures OnlySum([], owner, n) == 0
    decreases n
  {
    if n > 0 { OnlySumEmpty(owner, n - 1); }
  }

  lemma {:induction false} OnlySumIsLength(q: seq<array<uint8>>, owner: map<array<uint8>, uint8>)
    requires forall i | 0 <= i < |q| :: q[i] in owner && owner[q[i]] < TYPE_MAX
    ensures OnlySum(q, owner, 20) == |q|
    decreases |q|
  {
    hide OnlySum;
    if q == [] {
      OnlySumEmpty(owner, 20);
    } else {
      OnlySumCons(q, owner, 20);
      OnlySumIsLength(q[1..], owner);
    }
  }

  lemma {:induction false} SumsAgree(ops: OpTable, caps: Caps, infos: map<uint8, Info>, q: seq<array<uint8>>,
                                     owner: map<array<uint8>, uint8>, n: nat)
    requires Pool(ops, caps, infos, q, owner) && n <= 20
    ensures InRings(infos, n) == OnlySum(q, owner, n)
    decreases n
  {
    if n > 0 {
      var t := (n - 1) as uint8;
      SumsAgree(ops, caps, infos, q, owner, n - 1);
      if t in infos {
        PoolRing(ops, caps, infos, q, owner, t);
      } else {
        PoolWaiting(ops, caps, infos, q, owner);
        forall p | p in q ensures p in owner && owner[p] != t {
          var i :| 0 <= i < |q| && q[i] == p;
          assert Waiting(ops, q[i], owner);
        }
        OnlyNone(q, owner, t);
      }
    }
  }

  /** The rings of all types together hold exactly the packets waiting. */
  lemma {:induction false} RingsAddUp(ops: OpTable, caps: Caps, infos: map<uint8, Info>, q: seq<array<uint8>>,
                                      owner: map<array<uint8>, uint8>)
    requires FixedSizes(ops) && Pool(ops, caps, infos, q, owner)
    ensures InRings(infos, 20) == |q| <= PENDING_MAX
  {
    PoolWaiting(ops, caps, infos, q, owner);
    SumsAgree(ops, caps, infos, q, owner, 20);
    forall i | 0 <= i < |q| ensures q[i] in owner && owner[q[i]] < TYPE_MAX { assert Waiting(ops, q[i], owner); }
    hide Pool;
    OnlySumIsLength(q, owner);
  }

  /** A frame gets into flight at a size byte with room, and completes from flight only. */
  lemma {:induction false} FlightSteps(ops: OpTable, rx: Rx, i: Input)
    ensures var (next, status) := Step(ops, rx, i);
            && (next.InPayload? && !rx.InPayload? ==>
                  rx.SeekSize? && status == SyncSize && next.typ == rx.typ && i.room)
            && (next.SeekChecksum? ==> rx.InPayload? && next.typ == rx.typ)
            && (rx.InPayload? && next.InPayload? ==> next.typ == rx.typ)
            && (status == SyncSize ==> rx.SeekSize? && next.InPayload?)
            && (status == SyncChecksum ==> rx.SeekChecksum? && next == SeekAA)
  {
  }

  lemma {:induction false} SoundBuffer(ops: OpTable, rx: Rx, i: Input)
    requires FixedSizes(ops) && Sound(ops, rx)
    ensures rx.SeekSize? ==> rx.typ in ops && rx.size == ops[rx.typ]
    ensures rx.SeekChecksum? ==> rx.typ in ops && 4 <= |rx.buf| == ops[rx.typ] as int && rx.buf[0] == rx.typ
    ensures Delivered(ops, rx, i) == if Step(ops, rx, i).1 == SyncChecksum && rx.SeekChecksum? then [rx.buf] else []
  {
  }

  lemma {:induction false} OnlySame(q: seq<array<uint8>>, a: map<array<uint8>, uint8>, b: map<array<uint8>, uint8>,
                                    t: uint8)
    requires forall p | p in q :: p in a && p in b && a[p] == b[p]
    ensures Only(q, a, t) == Only(q, b, t)
    decreases |q|
  {
    if q != [] { OnlySame(q[1..], a, b, t); }
  }

  lemma {:induction false} OnlyNone(q: seq<array<uint8>>, owner: map<array<uint8>, uint8>, t: uint8)
    requires forall p | p in q :: p in owner && owner[p] != t
    ensures Only(q, owner, t) == []
    decreases |q|
  {
    if q != [] { OnlyNone(q[1..], owner, t); }
  }

  /** owner' differs from owner at most on buffers of type t. */
  ghost predicate SameElsewhere(owner: map<array<uint8>, uint8>, owner': map<array<uint8>, uint8>, t: uint8) {
    forall b | b in owner && owner[b] != t :: b in owner' && owner'[b] == owner[b]
  }

  /** Buffers that can be given to a type: of the right size, all different, not owned by another type. */
  ghost predicate Usable(t: uint8, size: uint8, buffers: seq<array<uint8>>, owner: map<array<uint8>, uint8>) {
    && (forall b | b in buffers :: b.Length == size as int && (b in owner ==> owner[b] == t))
    && (forall i, j | 0 <= i < j < |buffers| :: buffers[i] != buffers[j])
  }

  ghost predicate NoneOfType(q: seq<array<uint8>>, owner: map<array<uint8>, uint8>, t: uint8) {
    forall p | p in q :: p in owner && owner[p] != t
  }

  lemma {:induction false} NewOwner(owner: map<array<uint8>, uint8>, owner': map<array<uint8>, uint8>, t: uint8,
                                    info: Info)
    requires owner' == owner + (map b | b in info.buffers :: t)
    requires Usable(t, info.size, info.buffers, owner)
    requires info.max == |info.buffers| <= PER_TYPE_MAX && info.start == info.end == info.count == 0
    ensures SameElsewhere(owner, owner', t) && Owned(t, info, owner') && info.Valid()
  {
    forall i | 0 <= i < info.max ensures info.buffers[i] in owner' && owner'[info.buffers[i]] == t {
      assert info.buffers[i] in info.buffers;
    }
  }

  /** A type that has nothing waiting can be given new buffers. */
  lemma {:induction false} PoolInstall(ops: OpTable, caps: Caps, infos: map<uint8, Info>, q: seq<array<uint8>>,
                    owner: map<array<uint8>, uint8>, owner': map<array<uint8>, uint8>, t: uint8, info: Info)
    requires Pool(ops, caps, infos, q, owner) && SameElsewhere(owner, owner', t)
    requires Owned(t, info, owner') && info.Valid() && info.count == 0 && NoneOfType(q, owner, t)
    ensures Pool(ops[t := info.size], caps[t := info.max], infos[t := info], q, owner')
  {
    hide Only;
    hide SameElsewhere;
    hide NoneOfType;
    var after, ops', caps' := infos[t := info], ops[t := info.size], caps[t := info.max];
    PoolWaiting(ops, caps, infos, q, owner);
    WaitingInstall(ops, q, owner, owner', t, info.size);
    InstalledRing(q, owner, owner', t, info);
    hide Waiting;
    forall u | u in after ensures RingOf(ops', caps', after[u], q, owner', u) {
      if u != t {
        PoolRing(ops, caps, infos, q, owner, u);
        hide Pool;
        OtherRing(q, owner, owner', t, u, infos[u]);
        hide Owned;
        hide Info.InUse;
      }
    }
    hide Pool;
    hide RingOf;
    PoolOf(ops', caps', after, q, owner');
  }

  lemma {:induction false} InstalledRing(q: seq<array<uint8>>, owner: map<array<uint8>, uint8>,
                                         owner': map<array<uint8>, uint8>, t: uint8, info: Info)
    requires SameElsewhere(owner, owner', t) && NoneOfType(q, owner, t) && info.Valid() && info.count == 0
    ensures Only(q, owner', t) == info.InUse()
  {
    OnlySame(q, owner, owner', t);
    OnlyNone(q, owner, t);
  }

  lemma {:induction false} OtherRing(q: seq<array<uint8>>, owner: map<array<uint8>, uint8>, owner': map<array<uint8>,
                                     uint8>, t: uint8, u: uint8, info: Info)
    requires SameElsewhere(owner, owner', t) && NoneOfType(q, owner, t) && u != t
    requires Owned(u, info, owner) && Only(q, owner, u) == info.InUse()
    ensures Owned(u, info, owner') && Only(q, owner', u) == info.InUse()
  {
    OnlySame(q, owner, owner', u);
  }

  lemma {:induction false} WaitingInstall(ops: OpTable, q: seq<array<uint8>>, owner: map<array<uint8>, uint8>,
                                          owner': map<array<uint8>, uint8>,
                       t: uint8, size: uint8)
    requires forall i | 0 <= i < |q| :: Waiting(ops, q[i], owner)
    requires SameElsewhere(owner, owner', t) && NoneOfType(q, owner, t)
    ensures forall i | 0 <= i < |q| :: Waiting(ops[t := size], q[i], owner')
  {
    forall i | 0 <= i < |q| ensures Waiting(ops[t := size], q[i], owner') { assert q[i] in q; }
  }

  lemma {:induction false} HeadedInstall(q: seq<array<uint8>>, owner: map<array<uint8>, uint8>,
                                         owner': map<array<uint8>, uint8>, t: uint8)
    requires Headed(q, owner) && SameElsewhere(owner, owner', t) && NoneOfType(q, owner, t)
    ensures Headed(q, owner')
  {
  }

  lemma {:induction false} SoundInstall(ops: OpTable, rx: Rx, t: uint8, size: uint8)
    requires FixedSizes(ops) && t < TYPE_MAX && 4 <= size as int <= SIZE_MAX
    requires Sound(ops, rx) && (rx.SeekSize? || rx.InPayload? || rx.SeekChecksum? ==> rx.typ != t)
    ensures FixedSizes(ops[t := size]) && Sound(ops[t := size], rx)
  {
  }

  class DeferredPacketHandler {
    const base: PacketHandler
    var infos: map<uint8, Info>
    const pendingPackets: array<array?<uint8>>
    var pendingSize: nat

    ghost var queue: seq<array<uint8>>          // the first pendingSize entries of pendingPackets
    ghost var owner: map<array<uint8>, uint8>   // the type each buffer belongs to
    ghost var caps: Caps                        // number of buffers of each type
    ghost var done: seq<Packet>                 // what the actions were given, in order

    ghost predicate Listed()
      reads this`pendingSize, this`queue, pendingPackets
    {
      && pendingPackets.Length == PENDING_MAX && |queue| == pendingSize
      && (forall i | 0 <= i < pendingSize && i < pendingPackets.Length :: pendingPackets[i] == queue[i])
    }

    /** A frame in flight is received into the slot at the end of a ring that has room. */
    ghost predicate Flight()
      reads this`infos, base`rxBuffer, base`rxOpType
    {
      base.rxBuffer != null ==>
        && base.rxOpType in infos && infos[base.rxOpType].Valid()
        && infos[base.rxOpType].count < infos[base.rxOpType].max
        && base.rxBuffer == infos[base.rxOpType].buffers[infos[base.rxOpType].end]
    }

    ghost predicate Valid()
      reads this, base, base.rxBuffer, pendingPackets, queue
    {
      && base.Valid() && FixedSizes(base.operations) && base.txBuffer !in owner && Sound(base.operations, base.Rx())
      && Pool(base.operations, caps, infos, queue, owner) && Listed() && Headed(queue, owner) && Flight()
    }

    /** The abstract state. */
    ghost function State(): State
      reads this, base, base.rxBuffer, queue
      requires base.Valid()
    {
      Deferred.State(base.Rx(), Contents(queue), done)
    }

    constructor ()
      ensures Valid() && fresh(base) && fresh(base.txBuffer) && fresh(pendingPackets)
      ensures base.operations == map[] && caps == map[] && State() == Fresh && owner == map[] && base.TxRing() == []
    {
      base := new PacketHandler();
      infos, owner, caps, done, queue := map[], map[], map[], [], [];
      pendingPackets := new array?<uint8>[PENDING_MAX](_ => null);
      pendingSize := 0;
    }

    /** The free buffer at the end of the ring of the type being received, if there is one. */
    method InitializeBuffer(t: uint8) returns (buffer: array?<uint8>)
      requires Valid() && base.rxFn == FnSize && t == base.rxOpType && t in infos
      ensures buffer != null <==> Room(caps, State())
      ensures buffer != null ==>
        infos[t].Valid() && infos[t].count < infos[t].max && buffer == infos[t].buffers[infos[t].end]
    {
      RoomIs();
      PoolInfo(base.operations, caps, infos, queue, owner, t);
      hide Pool;
      hide Sound;
      hide PacketHandler.Valid;
      hide Headed;
      var info := infos[t];
      if info.count >= info.max { return null; }
      buffer := info.buffers[info.end];
    }

    /** The ring sizes of all types add up to the number of packets waiting. */
    lemma {:induction false} RingSizes()
      requires Valid()
      ensures InRings(infos, 20) == pendingSize <= PENDING_MAX
    {
      hide Pool;
      hide Sound;
      hide PacketHandler.Valid;
      RingsAddUp(base.operations, caps, infos, queue, owner);
    }

    /** Room in the abstract state is room in the ring of the type being received. */
    lemma {:induction false} RoomIs()
      requires Valid()
      ensures base.rxFn == FnSize ==> base.rxOpType in infos
      ensures Room(caps, State()) <==> base.rxFn == FnSize && infos[base.rxOpType].count < infos[base.rxOpType].max
    {
      hide FixedSizes;
      if base.rxFn == FnSize {
        var t := base.rxOpType;
        CountIsOnly(queue, owner, t);
        assert Owned(t, infos[t], owner);
      }
    }

    /** A packet is complete: it joins the list, and the ring of its type advances over its slot. */
    method OnReceive(packet: array<uint8>)
      requires Valid() && base.rxBuffer == null
      requires packet.Length >= 4 && packet[0] in infos && infos[packet[0]].Valid()
      requires infos[packet[0]].count < infos[packet[0]].max
      requires packet == infos[packet[0]].buffers[infos[packet[0]].end]
      modifies this`infos, this`pendingSize, this`queue, pendingPackets
      ensures Valid()
      ensures Contents(queue) ==
        if |old(queue)| < PENDING_MAX then old(Contents(queue)) + [packet[..]] else old(Contents(queue))
    {
      hide Sound;
      hide PacketHandler.Valid;
      hide Pool;
      hide Headed;
      hide Contents;
      var info := infos[packet[0]];
      PoolInfo(base.operations, caps, infos, queue, owner, packet[0]);
      // first assertion of the source
      assert packet == info.buffers[info.end];
      if pendingSize < PENDING_MAX {
        PoolPut(base.operations, caps, infos, queue, owner, packet[0]);
        SnocContents(queue, packet, owner);
        pendingPackets[pendingSize] := packet;
        // BUFFER_PUT
        var end := info.end + 1;
        if end >= info.max { end := 0; }
        infos := infos[packet[0] := info.(end := end, count := info.count + 1)];
        pendingSize := pendingSize + 1;
        queue := queue + [packet];
      }
    }

    /** Feeds one byte from the line. */
    method RxByte(c: uint8) returns (status: Status)
      requires Valid()
      modifies this`infos, this`pendingSize, this`queue, pendingPackets, base, owner.Keys
      ensures Valid()
      ensures base.operations == old(base.operations) && base.TxRing() == old(base.TxRing())
      ensures State() == ByteStep(base.operations, caps, old(State()), c)
      ensures status == Step(base.operations, old(State()).rx, InputOf(caps, old(State()), c)).1
    {
      hide Pool;
      hide Sound;
      hide PacketHandler.Valid;
      hide Headed;
      hide Contents;
      hide Step;
      hide Delivered;
      hide Room;
      RoomIs();
      var offered: array?<uint8> := null;
      if base.rxFn == FnSize { offered := InitializeBuffer(base.rxOpType); }
      ghost var pending := Contents(queue);
      status := RxBase(c, offered);
      if status == SyncChecksum {
        OnReceive(base.rxPacket);
      } else {
        assert pending + [] == pending;
      }
    }

    /** The base handler takes the byte; it writes at most into the slot in flight. */
    method RxBase(c: uint8, offered: array?<uint8>) returns (status: Status)
      requires Valid()
      requires offered != null ==>
        && base.rxFn == FnSize && base.rxOpType in infos && infos[base.rxOpType].Valid()
        && infos[base.rxOpType].count < infos[base.rxOpType].max
        && offered == infos[base.rxOpType].buffers[infos[base.rxOpType].end]
      modifies base, owner.Keys
      ensures Valid() && base.operations == old(base.operations) && base.TxRing() == old(base.TxRing())
      ensures Contents(queue) == old(Contents(queue))
      ensures (base.Rx(), status) == Step(base.operations, old(base.Rx()), Input(c, offered != null))
      ensures Delivered(base.operations, old(base.Rx()), Input(c, offered != null)) ==
              if status == SyncChecksum && old(base.Rx()).SeekChecksum? then [old(base.Rx()).buf] else []
      ensures status == SyncChecksum ==>
        && old(base.Rx()).SeekChecksum? && base.rxPacket != null && base.rxBuffer == null
        && base.rxPacket[..] == old(base.Rx()).buf
        && base.rxPacket.Length >= 4 && base.rxPacket[0] in infos && infos[base.rxPacket[0]].Valid()
        && infos[base.rxPacket[0]].count < infos[base.rxPacket[0]].max
        && base.rxPacket == infos[base.rxPacket[0]].buffers[infos[base.rxPacket[0]].end]
    {
      hide DeferredPacketHandler.Listed;
      hide Pool;
      hide Step;
      hide Xor;
      hide Sound;
      hide Xor2;
      hide Delivered;
      ghost var i := Input(c, offered != null);
      SoundBuffer(base.operations, base.Rx(), i);
      FlightSteps(base.operations, base.Rx(), i);
      if base.rxBuffer != null || offered != null {
        PoolInfo(base.operations, caps, infos, queue, owner, base.rxOpType);
      }
      StepSound(base.operations, base.Rx(), i);
      status := base.RxByte(c, offered);
      assert forall i | 0 <= i < |queue| :: queue[i][..] == old(queue[i][..]);
    }

    /** Runs the action of every pending packet, the oldest first. `actions` is what they were given. */
    method ProcessPendingPackets() returns (actions: seq<Packet>)
      requires Valid()
      modifies this`infos, this`pendingSize, this`queue, this`done
      ensures Valid() && State() == ProcessStep(old(State()))
      ensures actions == old(State()).pending
    {
      hide Pool;
      hide Sound;
      hide PacketHandler.Valid;
      hide Headed;
      hide PacketHandler.Rx;
      hide Info.InUse;
      hide Step;
      hide FixedSizes;
      hide Contents;
      actions := [];
      ghost var all := queue;
      PoolLength(base.operations, caps, infos, all, owner);
      for pnum := 0 to pendingSize
        modifies this`infos
        invariant Pool(base.operations, caps, infos, all[pnum..], owner) && Flight()
        invariant actions == Contents(all)[..pnum]
      {
        var p := pendingPackets[pnum];
        assert p == all[pnum] == all[pnum..][0];
        HeadOf(all, owner, pnum);
        NextContents(all, pnum);
        ReleaseFirst(p, all[pnum..]);
        actions := actions + [p[..]];
        assert all[pnum..][1..] == all[pnum + 1..];
      }
      assert all[|all|..] == [] && Contents(all)[..|all|] == Contents(all);
      pendingSize := 0;
      queue := [];
      done := done + actions;
      EmptyHeaded(owner);
    }

    /** The oldest of some waiting packets leaves the ring of its type. */
    method ReleaseFirst(p: array<uint8>, ghost q: seq<array<uint8>>)
      requires Pool(base.operations, caps, infos, q, owner) && Flight()
      requires q != [] && p == q[0] && p.Length > 0 && p in owner && p[0] == owner[p]
      modifies this`infos
      ensures Pool(base.operations, caps, infos, q[1..], owner) && Flight()
    {
      hide Pool;
      hide Info.InUse;
      FrontIsStart(base.operations, caps, infos, q, owner);
      var info := infos[p[0]];
      // second assertion of the source
      assert p == info.buffers[info.start];
      // BUFFER_GET
      PoolGet(base.operations, caps, infos, q, owner, p[0]);
      var start := info.start + 1;
      if start >= info.max { start := 0; }
      infos := infos[p[0] := info.(start := start, count := info.count - 1)];
    }

    /** Registers a type with its buffers. The ring of the type is overwritten before the base handler
        is asked, and its operation record is the one in packet_infos: installing a type again changes
        its size and its buffers although InstallError is returned. */
    method InstallPacket(t: uint8, size: uint8, buffers: seq<array<uint8>>) returns (status: Status)
      requires Valid() && 4 <= size as int <= SIZE_MAX && |buffers| <= PER_TYPE_MAX
      requires Usable(t, size, buffers, owner) && base.txBuffer !in buffers && NoneOfType(queue, owner, t)
      requires base.rxFn == FnSize || base.rxBuffer != null ==> base.rxOpType != t
      modifies this`infos, this`owner, this`caps, base`operations
      ensures Valid() && State() == old(State())
      ensures t >= TYPE_MAX ==>
        status == InstallError && base.operations == old(base.operations) && caps == old(caps) && owner == old(owner)
      ensures t < TYPE_MAX ==>
        && status == (if t in old(base.operations) then InstallError else Success)
        && base.operations == old(base.operations)[t := size] && caps == old(caps)[t := |buffers|]
        && owner == old(owner) + (map b | b in buffers :: t)
    {
      hide DeferredPacketHandler.Listed;
      hide Pool;
      hide Sound;
      hide PacketHandler.Valid;
      hide Headed;
      hide Contents;
      hide Owned;
      hide SameElsewhere;
      hide PacketHandler.Rx;
      hide Usable;
      hide NoneOfType;
      hide FixedSizes;
      hide Step;
      if t >= TYPE_MAX { return InstallError; }
      InstallRing(t, size, buffers);
      status := InstallOps(t, size);
    }

    /** The ring of a type starts anew, with nothing in it. */
    method InstallRing(t: uint8, size: uint8, buffers: seq<array<uint8>>)
      requires Pool(base.operations, caps, infos, queue, owner) && Headed(queue, owner) && Flight()
      requires Usable(t, size, buffers, owner) && NoneOfType(queue, owner, t) && |buffers| <= PER_TYPE_MAX
      requires base.txBuffer !in owner && base.txBuffer !in buffers && (base.rxBuffer != null ==> base.rxOpType != t)
      modifies this`infos, this`owner, this`caps
      ensures Pool(base.operations[t := size], caps, infos, queue, owner) && Headed(queue, owner) && Flight()
      ensures base.txBuffer !in owner && caps == old(caps)[t := |buffers|]
      ensures owner == old(owner) + (map b | b in buffers :: t)
    {
      hide Pool;
      hide Headed;
      hide Owned;
      hide SameElsewhere;
      hide Usable;
      hide NoneOfType;
      var info := Info(size, buffers, |buffers|, 0, 0, 0);
      ghost var owner' := owner + (map b | b in buffers :: t);
      NewOwner(owner, owner', t, info);
      PoolInstall(base.operations, caps, infos, queue, owner, owner', t, info);
      HeadedInstall(queue, owner, owner', t);
      owner := owner';
      caps := caps[t := |buffers|];
      infos := infos[t := info];
    }

    /** PacketHandler_installPacket, for a record that lives in packet_infos. */
    method InstallOps(t: uint8, size: uint8) returns (status: Status)
      requires base.Valid() && FixedSizes(base.operations) && Sound(base.operations, base.Rx())
      requires t < TYPE_MAX && 4 <= size as int <= SIZE_MAX
      requires base.rxFn == FnSize || base.rxBuffer != null ==> base.rxOpType != t
      modifies base`operations
      ensures base.Valid() && FixedSizes(base.operations) && Sound(base.operations, base.Rx())
      ensures base.operations == old(base.operations)[t := size] && base.Rx() == old(base.Rx())
      ensures status == if t in old(base.operations) then InstallError else Success
    {
      SoundInstall(base.operations, base.Rx(), t, size);
      hide Sound;
      hide PacketHandler.RxValid;
      status := base.InstallPacket(t, size);
      base.operations := base.operations[t := size];
    }
  }
}
