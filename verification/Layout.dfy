/** The packed structures of orazio_packets.h: the sizes and offsets used elsewhere are sums of field sizes. */
module Layout {
  import opened Words
  import opened Messages
  import opened Firmware

  /** type, size and seq; an indexed packet adds its index. */
  const HEADER: seq<nat> := [1, 1, 2]
  const INDEXED: seq<nat> := [1, 1, 2, 1]

  const SYSTEM_PARAM_FIELDS: seq<nat> := HEADER + [4, 4, 2, 4, 2, 1, 2, 1]

  /** The fields of every packet, in order. */
  function Fields(t: uint8): seq<nat>
    requires t < 14
  {
    if t == SYSTEM_PARAM then SYSTEM_PARAM_FIELDS else if Indexed(t) then INDEXED + Payload(t) else HEADER + Payload(t)
  }

  function Payload(t: uint8): seq<nat>
    requires t < 14 && t != SYSTEM_PARAM
  {
    if t == RESPONSE then [1, 2, 1]
    else if t == PARAM_CONTROL then [1, 1, 1]
    else if t == SYSTEM_STATUS then Repeat(9, 2) + [1, 4]
    else if t == JOINT_STATUS then Repeat(5, 2) + [1]
    else if t == JOINT_CONTROL then [2, 1]
    else if t == JOINT_PARAM then Repeat(8, 2) + [1, 3]
    else if t == DRIVE_STATUS then Repeat(9, 4) + [1]
    else if t == DRIVE_CONTROL then [4, 4]
    else if t == DRIVE_PARAM then Repeat(8, 4) + [1, 1]
    else if t == END_EPOCH then []
    else if t == MESSAGE then [80]
    else if t == SONAR_STATUS then [16]
    else [8]
  }

  function Sum(fields: seq<nat>): nat {
    if fields == [] then 0 else fields[0] + Sum(fields[1..])
  }

  lemma {:induction false} SumConcat(a: seq<nat>, b: seq<nat>)
    ensures Sum(a + b) == Sum(a) + Sum(b)
    decreases |a|
  {
    if a == [] {
      assert a + b == b;
    } else {
      assert (a + b)[1..] == a[1..] + b;
      SumConcat(a[1..], b);
    }
  }

  function Repeat(n: nat, size: nat): seq<nat> {
    if n == 0 then [] else [size] + Repeat(n - 1, size)
  }

  function Times(n: nat, size: nat): nat { n * size }

  lemma {:induction false} TimesNext(n: nat, size: nat)
    ensures Times(n, size) == if n == 0 then 0 else Times(n - 1, size) + size
  {
  }

  lemma {:induction false} SumRepeat(n: nat, size: nat, rest: seq<nat>)
    ensures Sum(Repeat(n, size) + rest) == Times(n, size) + Sum(rest)
  {
    TimesNext(n, size);
    hide Times;
    if n > 0 {
      SumRepeat(n - 1, size, rest);
      var tail := Repeat(n - 1, size) + rest;
      assert Repeat(n, size) + rest == [size] + tail;
      hide Repeat;
      assert ([size] + tail)[1..] == tail;
      assert Sum([size] + tail) == size + Sum(tail);
    } else {
      assert Repeat(0, size) + rest == rest;
    }
  }

  lemma {:induction false} ShortSums()
    ensures Sum([]) == 0 && Sum([1]) == 1 && Sum([1, 4]) == 5 && Sum([1, 3]) == 4 && Sum([1, 1]) == 2
    ensures Sum([1, 2, 1]) == 4 && Sum([1, 1, 1]) == 3 && Sum([2, 1]) == 3 && Sum([4, 4]) == 8
    ensures Sum([80]) == 80 && Sum([16]) == 16 && Sum([8]) == 8
    ensures Sum(HEADER) == 4 && Sum(INDEXED) == 5 && Sum([4, 4, 2, 4, 2]) == 16
  {
  }

  lemma {:induction false} PayloadSum(t: uint8)
    requires t < 14 && t != SYSTEM_PARAM
    ensures Sum(Payload(t)) == [4, 3, 23, 0, 11, 3, 20, 37, 8, 34, 0, 80, 16, 8][t]
  {
    ShortSums();
    hide Sum;
    SumRepeat(9, 2, [1, 4]);
    SumRepeat(5, 2, [1]);
    SumRepeat(8, 2, [1, 3]);
    SumRepeat(9, 4, [1]);
    SumRepeat(8, 4, [1, 1]);
    hide Repeat;
  }

  /** A packet has the size of its structure, on either side. */
  lemma {:induction false} SizesAreSums(t: uint8)
    ensures t in TO_ROBOT ==> t < 14 && TO_ROBOT[t] as int == Sum(Fields(t))
    ensures t in TO_HOST ==> t < 14 && TO_HOST[t] as int == Sum(Fields(t))
  {
    hide Sum;
    ShortSums();
    SumConcat(HEADER, [4, 4, 2, 4, 2] + [1, 2, 1]);
    SumConcat([4, 4, 2, 4, 2], [1, 2, 1]);
    assert [4, 4, 2, 4, 2] + [1, 2, 1] == [4, 4, 2, 4, 2, 1, 2, 1];
    if t < 14 && t != SYSTEM_PARAM {
      PayloadSum(t);
      SumConcat(HEADER, Payload(t));
      SumConcat(INDEXED, Payload(t));
    }
    hide Payload;
  }

  /** periodic_packet_mask follows comm_cycles. */
  lemma {:induction false} MaskIsField(s: Params)
    requires ParamsOk(s)
    ensures ParamKey(Key(SYSTEM_PARAM, 0)) && Sum(SYSTEM_PARAM_FIELDS[..8]) < |s.vars[Key(SYSTEM_PARAM, 0)]|
    ensures Mask(s) == s.vars[Key(SYSTEM_PARAM, 0)][Sum(SYSTEM_PARAM_FIELDS[..8])]
    ensures SYSTEM_PARAM_FIELDS[8] == 1
  {
    assert ParamKey(Key(SYSTEM_PARAM, 0));
    assert Holds(Key(SYSTEM_PARAM, 0), s.vars[Key(SYSTEM_PARAM, 0)]);
    hide ParamsOk;
    assert SYSTEM_PARAM_FIELDS[..8] == HEADER + [4, 4, 2, 4, 2];
    ShortSums();
    hide Sum;
    SumConcat(HEADER, [4, 4, 2, 4, 2]);
  }
}
