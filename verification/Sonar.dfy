/** orazio_sonar.c: the cyclic schedule that polls groups of sonars. */
module Sonars {
  import opened Words

  const SONARS_NUM: nat := 8

  /** Bit s of a mask. */
  predicate Bit(mask: bv8, s: nat)
    requires s < SONARS_NUM
  {
    mask & (1 << s) != 0
  }

  lemma {:induction false} SetBit(mask: bv8, s: nat, k: nat)
    requires s < SONARS_NUM && k < SONARS_NUM
    ensures Bit(mask | (1 << s), k) <==> k == s || Bit(mask, k)
  {
  }

  type Pattern = p: seq<uint8> | |p| == SONARS_NUM witness [0, 0, 0, 0, 0, 0, 0, 0]

  /** The largest pattern of the first n sonars. */
  function MaxOf(p: Pattern, n: nat): (m: uint8)
    requires n <= SONARS_NUM
    ensures forall s | 0 <= s < n :: p[s] <= m
    ensures m != 0 ==> exists s :: 0 <= s < n && p[s] == m
  {
    if n == 0 then 0
    else
      var m := MaxOf(p, n - 1);
      if m < p[n - 1] then p[n - 1] else m
  }

  /** ++ on a byte. */
  function Increment(c: uint8): uint8 { if c == 255 then 0 else c + 1 }

  /** The schedule: the cycle counter, and the mask that the last call polled (0 when none). */
  datatype Schedule = Schedule(pattern: Pattern, max: uint8, current: uint8, polled: bv8)
  {
    /** What Orazio_sonarInit establishes. */
    predicate Valid() { max == MaxOf(pattern, SONARS_NUM) && current <= max }

    /** Sonar s is due in the present cycle. */
    predicate Due(s: nat)
      requires s < SONARS_NUM
    {
      pattern[s] != 0 && pattern[s] == current
    }
  }

  class Sonar {
    var pattern: Pattern
    var maxCycle: uint8
    var currentCycle: uint8
    var ready: bool
    var polled: bv8 // what the last call started

    function State(): Schedule
      reads this
    {
      Schedule(pattern, maxCycle, currentCycle, polled)
    }

    constructor (pattern: Pattern)
      ensures this.pattern == pattern && State().Valid() && currentCycle == 0 && !ready && polled == 0
    {
      this.pattern := pattern;
      maxCycle, currentCycle, ready, polled := 0, 0, false, 0;
      new;
      Init();
    }

    method Init()
      modifies this
      ensures pattern == old(pattern) && State().Valid() && currentCycle == 0 && !ready && polled == 0
    {
      maxCycle, currentCycle, ready, polled := 0, 0, false, 0;
      for s := 0 to SONARS_NUM
        invariant maxCycle == MaxOf(pattern, s) && pattern == old(pattern)
        invariant currentCycle == 0 && !ready && polled == 0
      {
        if maxCycle < pattern[s] { maxCycle := pattern[s]; }
      }
    }

    /** One communication cycle. */
    method Handle()
      requires State().Valid()
      modifies this
      ensures State().Valid() && pattern == old(pattern)
      ensures State() == Advance(old(State())).(polled := polled)
      ensures forall s | 0 <= s < SONARS_NUM :: Bit(polled, s) <==> State().Due(s)
      ensures ready <==> polled != 0
    {
      ready, polled := false, 0;
      currentCycle := Increment(currentCycle);
      if currentCycle > maxCycle {
        currentCycle := 0;
        forall s | 0 <= s < SONARS_NUM ensures !Bit(0, s) {}
        return;
      }
      var mask := Mask();
      if mask == 0 { return; }
      ready := true;
      polled := mask;
    }

    /** The sonars that are due. */
    method Mask() returns (mask: bv8)
      ensures forall s | 0 <= s < SONARS_NUM :: Bit(mask, s) <==> State().Due(s)
    {
      hide Bit;
      mask := 0;
      NoBits();
      for s := 0 to SONARS_NUM
        invariant forall k | 0 <= k < SONARS_NUM :: Bit(mask, k) <==> k < s && State().Due(k)
      {
        if pattern[s] == 0 { continue; }
        if pattern[s] == currentCycle {
          ghost var was := mask;
          mask := mask | (1 << s);
          forall k | 0 <= k < SONARS_NUM ensures Bit(mask, k) <==> k == s || Bit(was, k) { SetBit(was, s, k); }
        }
      }
    }
  }

  lemma {:induction false} NoBits()
    ensures forall s | 0 <= s < SONARS_NUM :: !Bit(0, s)
  {
  }

  // ---------------------------------------------------------------- fairness

  /** The counter after one call. */
  function Advance(s: Schedule): (r: Schedule)
    requires s.Valid()
    ensures r.Valid()
  {
    s.(current := if s.current == s.max then 0 else s.current + 1)
  }

  /** The state after k calls; its Due is what the k-th call polls. */
  function Calls(s: Schedule, k: nat): (r: Schedule)
    requires s.Valid()
    ensures r.Valid() && r.pattern == s.pattern && r.max == s.max
  {
    if k == 0 then s else Advance(Calls(s, k - 1))
  }

  lemma {:induction false} CallsCount(s: Schedule, k: nat)
    requires s.Valid() && k <= s.max as int + 1
    ensures Calls(s, k).current as int ==
            if s.current as int + k <= s.max as int then s.current as int + k
            else s.current as int + k - s.max as int - 1
  {
    if k > 0 { CallsCount(s, k - 1); }
  }

  /** The call, of the coming max + 1, at which a sonar with this pattern has its turn. */
  function Turn(s: Schedule, pattern: uint8): int {
    if pattern > s.current then pattern as int - s.current as int
    else pattern as int - s.current as int + s.max as int + 1
  }

  /** From every reachable state, the next max + 1 calls poll every sonar with a pattern exactly once - also
      when max is 255 and the counter wraps by overflow - and never one without. */
  lemma {:induction false} Fair(s: Schedule, sonar: nat)
    requires s.Valid() && sonar < SONARS_NUM
    ensures s.pattern[sonar] != 0 ==>
              1 <= Turn(s, s.pattern[sonar]) <= s.max as int + 1 &&
              forall k | 1 <= k <= s.max as int + 1 :: Calls(s, k).Due(sonar) <==> k == Turn(s, s.pattern[sonar])
    ensures s.pattern[sonar] == 0 ==> forall k: nat :: !Calls(s, k).Due(sonar)
  {
    forall k: nat | 1 <= k <= s.max as int + 1
      ensures Calls(s, k).Due(sonar) <==> s.pattern[sonar] != 0 && k == Turn(s, s.pattern[sonar])
    {
      CallsCount(s, k);
    }
  }

  /** Two sonars are polled by the same calls if and only if their patterns are equal. */
  lemma {:induction false} ShareIff(s: Schedule, i: nat, j: nat)
    requires s.Valid() && i < SONARS_NUM && j < SONARS_NUM
    ensures (forall k: nat :: Calls(s, k).Due(i) <==> Calls(s, k).Due(j)) <==> s.pattern[i] == s.pattern[j]
  {
    if s.pattern[i] != s.pattern[j] {
      Fair(s, i);
      Fair(s, j);
      if s.pattern[i] != 0 {
        var k: nat := Turn(s, s.pattern[i]);
        assert Calls(s, k).Due(i) && !Calls(s, k).Due(j);
      } else {
        var k: nat := Turn(s, s.pattern[j]);
        assert Calls(s, k).Due(j) && !Calls(s, k).Due(i);
      }
    }
  }
}
