/** The index discipline of buffer_utils.h: BUFFER_PUT and BUFFER_GET on a ring of fixed capacity. */
module Ring {

  /** Index after the wrap of the macros. */
  function Wrap(i: nat, n: nat): (r: nat)
    requires i < 2 * n
    ensures r < n
  {
    if i >= n then i - n else i
  }

  /** The end index that belongs to a start and a size. */
  predicate Indices(n: nat, start: nat, end: nat, size: nat) {
    start < n && size <= n && end == Wrap(start + size, n)
  }

  /** The stored elements, oldest first. */
  function Slots<T>(buf: seq<T>, start: nat, size: nat): (s: seq<T>)
    requires start < |buf| && size <= |buf|
    ensures |s| == size
    ensures forall k | 0 <= k < size :: s[k] == buf[Wrap(start + k, |buf|)]
  {
    seq(size, k requires 0 <= k < size => buf[Wrap(start + k, |buf|)])
  }

  /** BUFFER_PUT: the new element is the youngest, the others stay. */
  lemma {:induction false} PutAppends<T>(buf: seq<T>, start: nat, end: nat, size: nat, x: T)
    requires Indices(|buf|, start, end, size) && size < |buf|
    ensures Slots(buf[end := x], start, size + 1) == Slots(buf, start, size) + [x]
    ensures Indices(|buf|, start, Wrap(end + 1, |buf|), size + 1)
  {
  }

  /** Advancing the end without writing: the element that was already there becomes the youngest. */
  lemma {:induction false} AdvanceAppends<T>(buf: seq<T>, start: nat, end: nat, size: nat)
    requires Indices(|buf|, start, end, size) && size < |buf|
    ensures Slots(buf, start, size + 1) == Slots(buf, start, size) + [buf[end]]
    ensures Indices(|buf|, start, Wrap(end + 1, |buf|), size + 1)
  {
    assert buf[end := buf[end]] == buf;
    PutAppends(buf, start, end, size, buf[end]);
  }

  /** BUFFER_GET: the oldest element leaves, the others stay. */
  lemma {:induction false} GetRemoves<T>(buf: seq<T>, start: nat, end: nat, size: nat)
    requires Indices(|buf|, start, end, size) && size > 0
    ensures buf[start] == Slots(buf, start, size)[0]
    ensures Slots(buf, Wrap(start + 1, |buf|), size - 1) == Slots(buf, start, size)[1..]
    ensures Indices(|buf|, Wrap(start + 1, |buf|), end, size - 1)
  {
    var next := Wrap(start + 1, |buf|);
    var s, t := Slots(buf, start, size), Slots(buf, next, size - 1);
    forall k | 0 <= k < size - 1 ensures t[k] == s[1..][k] {
      assert s[1..][k] == s[k + 1];
      assert Wrap(next + k, |buf|) == Wrap(start + (k + 1), |buf|);
    }
  }

  /** The slot at the end of a ring that is not full holds none of the stored elements. */
  lemma {:induction false} EndIsFree<T>(buf: seq<T>, start: nat, end: nat, size: nat)
    requires Indices(|buf|, start, end, size) && size < |buf|
    requires forall i, j | 0 <= i < j < |buf| :: buf[i] != buf[j]
    ensures buf[end] !in Slots(buf, start, size)
  {
    forall k | 0 <= k < size ensures Slots(buf, start, size)[k] != buf[end] {
      assert Wrap(start + k, |buf|) != end;
    }
  }
}
