/** orazio_logger.c: the main loop and the camera thread put records into one queue, the file thread
    takes them out; `empty` counts the records announced, `critical` guards the queue. Every statement
    that touches shared state is one step, and steps of the three threads interleave freely. */
module Logger {

  datatype Kind = Frame | System | Joint | Sonar | Drive

  /** genData_t without the text. */
  datatype Record = Record(kind: Kind, ts: nat)

  /** Where a producer is inside addPacket (or its copy in the camera thread). */
  datatype Phase = Waiting | Locked | Enqueued | Posted

  /** The main loop: at its head, in the k-th addPacket of a round, after the four, or out of the loop. */
  datatype MainPc = MainHead | Adding(k: nat, phase: Phase) | RoundDone | MainOut

  /** The camera thread: at its head, taking a frame, or adding a frame taken at a time. */
  datatype CameraPc = CameraHead | Taking | AddingFrame(ts: nat, phase: Phase) | CameraOut

  /** The file thread, from the loop test over the two waits to the write; Crashed when it has
      dereferenced the NULL of an empty queue. */
  datatype WriterPc = Test | WaitEmpty | WaitCritical | InQueue | Holding(r: Record) | Writing(r: Record)
                    | WriterOut | Crashed

  /** `log` is the history of enqueued records, `written` the file. */
  datatype State = State(main: MainPc, camera: CameraPc, writer: WriterPc, q: seq<Record>, empty: nat, critical: nat,
                         timestamp: nat, stop: bool, log: seq<Record>, written: seq<Record>)

  datatype Thread = MainThread | CameraThread | WriterThread | KeyThread

  /** Before the threads start. */
  predicate Start(s: State) {
    s == State(MainHead, CameraHead, Test, [], 0, 1, 0, false, [], [])
  }

  /** The four records of a round of the main loop. */
  function RoundKind(k: nat): Kind {
    if k == 0 then System else if k == 1 then Joint else if k == 2 then Sonar else Drive
  }

  /** Whether a thread can take a step: sem_wait blocks at zero. */
  predicate Ready(s: State, t: Thread) {
    match t
    case MainThread => !s.main.MainOut? && (s.main.Adding? && s.main.phase == Waiting ==> s.critical > 0)
    case CameraThread => !s.camera.CameraOut? && (s.camera.AddingFrame? && s.camera.phase == Waiting ==> s.critical > 0)
    case WriterThread =>
      && !s.writer.WriterOut? && !s.writer.Crashed?
      && (s.writer.WaitEmpty? ==> s.empty > 0) && (s.writer.WaitCritical? ==> s.critical > 0)
    case KeyThread => true
  }

  function EnqueueRecord(s: State, r: Record): State {
    s.(q := s.q + [r], log := s.log + [r])
  }

  function MainStep(s: State): State
    requires Ready(s, MainThread)
  {
    match s.main
    case MainHead => s.(main := if s.stop then MainOut else Adding(0, Waiting))
    case Adding(k, Waiting) => s.(critical := s.critical - 1, main := Adding(k, Locked))
    case Adding(k, Locked) => EnqueueRecord(s, Record(RoundKind(k), s.timestamp)).(main := Adding(k, Enqueued))
    case Adding(k, Enqueued) => s.(empty := s.empty + 1, main := Adding(k, Posted))
    case Adding(k, Posted) =>
      s.(critical := s.critical + 1, main := if k < 3 then Adding(k + 1, Waiting) else RoundDone)
    case RoundDone => s.(timestamp := s.timestamp + 1, main := MainHead)
  }

  function CameraStep(s: State): State
    requires Ready(s, CameraThread)
  {
    match s.camera
    case CameraHead => s.(camera := if s.stop then CameraOut else Taking)
    case Taking => s.(camera := AddingFrame(s.timestamp, Waiting))
    case AddingFrame(ts, Waiting) => s.(critical := s.critical - 1, camera := AddingFrame(ts, Locked))
    case AddingFrame(ts, Locked) => EnqueueRecord(s, Record(Frame, ts)).(camera := AddingFrame(ts, Enqueued))
    case AddingFrame(ts, Enqueued) => s.(empty := s.empty + 1, camera := AddingFrame(ts, Posted))
    case AddingFrame(ts, Posted) => s.(critical := s.critical + 1, camera := CameraHead)
  }

  function WriterStep(s: State): State
    requires Ready(s, WriterThread)
  {
    match s.writer
    case Test => s.(writer := if s.stop && s.q == [] then WriterOut else WaitEmpty)
    case WaitEmpty => s.(empty := s.empty - 1, writer := WaitCritical)
    case WaitCritical => s.(critical := s.critical - 1, writer := InQueue)
    case InQueue => if s.q == [] then s.(writer := Crashed) else s.(q := s.q[1..], writer := Holding(s.q[0]))
    case Holding(r) => s.(critical := s.critical + 1, writer := Writing(r))
    case Writing(r) => s.(written := s.written + [r], writer := Test)
  }

  // ---------------------------------------------------------------- the invariant

  predicate Holds(p: Phase) { p != Waiting }

  /** The threads inside the critical section. */
  function Inside(s: State): nat {
    (if s.main.Adding? && Holds(s.main.phase) then 1 else 0) +
    (if s.camera.AddingFrame? && Holds(s.camera.phase) then 1 else 0) +
    (if s.writer.InQueue? || s.writer.Holding? then 1 else 0)
  }

  /** Producers that have enqueued but not announced, and the writer when it was let in but has not dequeued. */
  function Unannounced(s: State): nat {
    (if s.main.Adding? && s.main.phase == Enqueued then 1 else 0) +
    (if s.camera.AddingFrame? && s.camera.phase == Enqueued then 1 else 0)
  }

  function Committed(s: State): nat { (if s.writer.WaitCritical? || s.writer.InQueue? then 1 else 0) }

  function InHand(s: State): seq<Record> {
    if s.writer.Holding? || s.writer.Writing? then [s.writer.r] else []
  }

  /** The records of the main loop, in order. */
  function Rounds(log: seq<Record>): seq<Record> {
    if log == [] then []
    else if log[|log| - 1].kind == Frame then Rounds(log[..|log| - 1])
    else Rounds(log[..|log| - 1]) + [log[|log| - 1]]
  }

  /** How many records the main loop has enqueued. */
  function RoundCount(s: State): nat {
    match s.main
    case MainHead => 4 * s.timestamp
    case MainOut => 4 * s.timestamp
    case RoundDone => 4 * s.timestamp + 4
    case Adding(k, phase) => 4 * s.timestamp + k + (if phase == Enqueued || phase == Posted then 1 else 0)
  }

  /** SYSTEM, JOINT, SONAR, DRIVE, over and over, with timestamps 0, 1, 2, ... */
  ghost predicate InRounds(rs: seq<Record>) {
    forall n | 0 <= n < |rs| :: rs[n] == RoundRecord(n)
  }

  function RoundRecord(n: nat): Record { Record(RoundKind(n % 4), n / 4) }

  /** A frame is not ahead of the main loop: all earlier rounds are in the log before it. */
  ghost predicate FramesInTime(log: seq<Record>) {
    forall i | 0 <= i < |log| && log[i].kind == Frame :: 4 * log[i].ts <= |Rounds(log[..i])|
  }

  /** One thread at a time in the critical section. */
  ghost predicate Exclusive(s: State) {
    s.critical + Inside(s) == 1
  }

  /** The length of the queue is what is announced, plus what the file thread was let in for, plus what
      is enqueued but not announced. */
  ghost predicate Accounted(s: State) {
    |s.q| == s.empty + Committed(s) + Unannounced(s)
  }

  ghost predicate Semaphores(s: State) {
    Exclusive(s) && Accounted(s) && !s.writer.Crashed?
  }

  /** First in first out: the file, the record in hand and the queue make up the history. */
  ghost predicate InOrder(s: State) {
    s.log == s.written + InHand(s) + s.q
  }

  /** What is in the history. */
  ghost predicate Recorded(s: State) {
    && (s.main.Adding? ==> s.main.k < 4)
    && InRounds(Rounds(s.log)) && |Rounds(s.log)| == RoundCount(s)
    && FramesInTime(s.log)
    && (s.camera.AddingFrame? ==> s.camera.ts <= s.timestamp)
  }

  ghost predicate Inv(s: State) {
    Semaphores(s) && InOrder(s) && Recorded(s)
  }

  function Step(s: State, t: Thread): State
    requires Ready(s, t)
  {
    match t
    case MainThread => MainStep(s)
    case CameraThread => CameraStep(s)
    case WriterThread => WriterStep(s)
    case KeyThread => s.(stop := true)
  }

  lemma {:induction false} RoundsSnoc(log: seq<Record>, r: Record)
    ensures Rounds(log + [r]) == if r.kind == Frame then Rounds(log) else Rounds(log) + [r]
  {
    assert (log + [r])[..|log|] == log;
  }

  lemma {:induction false} FramesSnoc(log: seq<Record>, r: Record)
    requires FramesInTime(log) && (r.kind == Frame ==> 4 * r.ts <= |Rounds(log)|)
    ensures FramesInTime(log + [r])
  {
    hide Rounds;
    var more := log + [r];
    forall i | 0 <= i < |more| && more[i].kind == Frame ensures 4 * more[i].ts <= |Rounds(more[..i])| {
      if i < |log| { assert more[..i] == log[..i]; } else { assert more[..i] == log; }
    }
  }

  lemma {:induction false} SemaphoresKeep(s: State, t: Thread)
    requires Semaphores(s) && Ready(s, t)
    ensures Semaphores(Step(s, t))
  {
  }

  /** In particular the file thread finds a record whenever it dequeues. */
  lemma {:induction false} NeverNull(s: State)
    requires Semaphores(s)
    ensures Exclusive(s) && Accounted(s) && !s.writer.Crashed? && (s.writer.InQueue? ==> s.q != [])
  {
  }

  lemma {:induction false} WrittenIsPrefix(s: State)
    requires InOrder(s)
    ensures s.written <= s.log && s.log[..|s.written|] == s.written
  {
  }

  lemma {:induction false} InOrderKeeps(s: State, t: Thread)
    requires InOrder(s) && Ready(s, t)
    ensures InOrder(Step(s, t))
  {
    if t == WriterThread { WriterInOrder(s); } else { ProducersInOrder(s, t); }
  }

  lemma {:induction false} WriterInOrder(s: State)
    requires InOrder(s) && Ready(s, WriterThread)
    ensures InOrder(WriterStep(s))
  {
    if s.writer.InQueue? && s.q != [] {
      assert s.written + [] + s.q == s.written + [s.q[0]] + s.q[1..];
    } else if s.writer.Writing? {
      assert s.written + [s.writer.r] + s.q == s.written + [s.writer.r] + [] + s.q;
    }
  }

  lemma {:induction false} ProducersInOrder(s: State, t: Thread)
    requires InOrder(s) && Ready(s, t) && t != WriterThread
    ensures InOrder(Step(s, t))
  {
    var n := Step(s, t);
    if n.log != s.log {
      var r := n.log[|s.log|];
      assert s.written + InHand(s) + (s.q + [r]) == s.written + InHand(s) + s.q + [r];
    }
  }

  lemma {:induction false} MainAdds(log: seq<Record>, k: nat, timestamp: nat)
    requires InRounds(Rounds(log)) && |Rounds(log)| == 4 * timestamp + k && k < 4 && FramesInTime(log)
    ensures var more := log + [Record(RoundKind(k), timestamp)];
            InRounds(Rounds(more)) && |Rounds(more)| == 4 * timestamp + k + 1 && FramesInTime(more)
  {
    var r := Record(RoundKind(k), timestamp);
    hide Rounds;
    hide FramesInTime;
    hide RoundRecord;
    hide RoundKind;
    hide InRounds;
    NextRound(k, timestamp);
    RoundsSnoc(log, r);
    FramesSnoc(log, r);
    InRoundsSnoc(Rounds(log), r);
  }

  lemma {:induction false} InRoundsSnoc(rs: seq<Record>, r: Record)
    requires InRounds(rs) && r == RoundRecord(|rs|)
    ensures InRounds(rs + [r])
  {
    hide RoundRecord;
  }

  lemma {:induction false} NextRound(k: nat, timestamp: nat)
    requires k < 4
    ensures RoundRecord(4 * timestamp + k) == Record(RoundKind(k), timestamp)
    ensures Record(RoundKind(k), timestamp).kind != Frame
  {
    assert (4 * timestamp + k) / 4 == timestamp && (4 * timestamp + k) % 4 == k;
  }

  lemma {:induction false} FrameAdds(log: seq<Record>, ts: nat, timestamp: nat)
    requires InRounds(Rounds(log)) && |Rounds(log)| >= 4 * timestamp && ts <= timestamp && FramesInTime(log)
    ensures var more := log + [Record(Frame, ts)]; Rounds(more) == Rounds(log) && FramesInTime(more)
  {
    RoundsSnoc(log, Record(Frame, ts));
    FramesSnoc(log, Record(Frame, ts));
  }

  lemma {:induction false} RecordedKeeps(s: State, t: Thread)
    requires Recorded(s) && Ready(s, t)
    ensures Recorded(Step(s, t))
  {
    hide Rounds;
    hide FramesInTime;
    hide InRounds;
    hide RoundKind;
    if t == MainThread && s.main.Adding? && s.main.phase == Locked { MainAdds(s.log, s.main.k, s.timestamp); }
    if t == CameraThread && s.camera.AddingFrame? && s.camera.phase == Locked {
      FrameAdds(s.log, s.camera.ts, s.timestamp);
    }
  }

  /** A schedule: which thread takes each step. */
  ghost predicate Schedule(s: State, ts: seq<Thread>)
    decreases |ts|
  {
    ts == [] || (Ready(s, ts[0]) && Schedule(Step(s, ts[0]), ts[1..]))
  }

  ghost function After(s: State, ts: seq<Thread>): State
    requires Schedule(s, ts)
    decreases |ts|
  {
    if ts == [] then s else After(Step(s, ts[0]), ts[1..])
  }

  lemma {:induction false} ScheduleKeeps(s: State, ts: seq<Thread>)
    requires Inv(s) && Schedule(s, ts)
    ensures Inv(After(s, ts))
    decreases |ts|
  {
    if ts != [] {
      SemaphoresKeep(s, ts[0]);
      InOrderKeeps(s, ts[0]);
      RecordedKeeps(s, ts[0]);
      ScheduleKeeps(Step(s, ts[0]), ts[1..]);
    }
  }

  /** Whatever the interleaving: the dequeue never yields NULL, the file is a prefix of the enqueue order,
      the records of the main loop form rounds with timestamps 0, 1, 2, ..., and a frame of time t comes
      after all rounds before t. */
  lemma {:induction false} LoggerSafe(s0: State, ts: seq<Thread>)
    requires Start(s0) && Schedule(s0, ts)
    ensures var s := After(s0, ts);
            && !s.writer.Crashed? && (s.writer.InQueue? ==> s.q != [])
            && Exclusive(s) && Accounted(s)
            && s.written <= s.log
            && InRounds(Rounds(s.log)) && InRounds(Rounds(s.written)) && FramesInTime(s.written)
  {
    hide Schedule;
    hide After;
    hide Rounds;
    hide FramesInTime;
    hide InRounds;
    hide Exclusive;
    hide Accounted;
    hide Semaphores;
    hide InOrder;
    hide RoundCount;
    hide Start;
    StartInv(s0);
    ScheduleKeeps(s0, ts);
    var s := After(s0, ts);
    NeverNull(s);
    WrittenIsPrefix(s);
    RoundsPrefix(s.log, |s.written|);
    FramesPrefix(s.log, |s.written|);
  }

  lemma {:induction false} StartInv(s: State)
    requires Start(s)
    ensures Inv(s)
  {
    hide Semaphores;
    hide InOrder;
    hide Recorded;
    StartSemaphores(s);
    StartRecords(s);
  }

  lemma {:induction false} StartSemaphores(s: State)
    requires Start(s)
    ensures Semaphores(s)
  {
  }

  lemma {:induction false} StartRecords(s: State)
    requires Start(s)
    ensures InOrder(s) && Recorded(s)
  {
  }

  lemma {:induction false} FramesPrefix(log: seq<Record>, n: nat)
    requires n <= |log| && FramesInTime(log)
    ensures FramesInTime(log[..n])
  {
    hide Rounds;
    forall i | 0 <= i < n && log[..n][i].kind == Frame ensures 4 * log[..n][i].ts <= |Rounds(log[..n][..i])| {
      assert log[..n][..i] == log[..i];
    }
  }

  lemma {:induction false} RoundsPrefix(log: seq<Record>, n: nat)
    requires n <= |log| && InRounds(Rounds(log))
    ensures InRounds(Rounds(log[..n]))
    decreases |log|
  {
    if n == |log| {
      assert log[..n] == log;
    } else {
      var m := |log| - 1;
      assert InRounds(Rounds(log[..m])) by {
        if log[m].kind != Frame {
          var rs := Rounds(log[..m]);
          assert forall i | 0 <= i < |rs| :: rs[i] == Rounds(log)[i];
        }
      }
      RoundsPrefix(log[..m], n);
      assert log[..m][..n] == log[..n];
    }
  }

  lemma {:induction false} ScheduleConcat(s: State, a: seq<Thread>, b: seq<Thread>)
    requires Schedule(s, a) && Schedule(After(s, a), b)
    ensures Schedule(s, a + b) && After(s, a + b) == After(After(s, a), b)
    decreases |a|
  {
    if a == [] {
      assert a + b == b;
    } else {
      ScheduleConcat(Step(s, a[0]), a[1..], b);
      assert (a + b)[1..] == a[1..] + b;
    }
  }

  lemma {:induction false} OneStep(s: State, t: Thread)
    requires Ready(s, t)
    ensures Schedule(s, [t]) && After(s, [t]) == Step(s, t)
  {
    assert [t][1..] == [];
  }

  // ---------------------------------------------------------------- what the records say

  /** In every run the main loop logs SYSTEM, JOINT, SONAR and DRIVE in each round, all with the number of the round. */
  lemma {:induction false} RoundsSay(s0: State, ts: seq<Thread>, n: nat)
    requires Start(s0) && Schedule(s0, ts) && n < |Rounds(After(s0, ts).log)|
    ensures var r := Rounds(After(s0, ts).log)[n];
            && 4 * r.ts <= n < 4 * r.ts + 4
            && (n == 4 * r.ts ==> r.kind == System) && (n == 4 * r.ts + 1 ==> r.kind == Joint)
            && (n == 4 * r.ts + 2 ==> r.kind == Sonar) && (n == 4 * r.ts + 3 ==> r.kind == Drive)
  {
    hide Schedule;
    hide After;
    hide Start;
    LoggerSafe(s0, ts);
    hide Rounds;
    hide Exclusive;
    hide Accounted;
    hide FramesInTime;
  }

  /** The timestamps of the frames among some records. */
  function FrameTimes(log: seq<Record>): seq<nat> {
    if log == [] then []
    else
      var n := |log| - 1;
      FrameTimes(log[..n]) + if log[n].kind == Frame then [log[n].ts] else []
  }

  /** The frame that has been taken but not enqueued. */
  function Pending(s: State): seq<nat> {
    if s.camera.AddingFrame? && (s.camera.phase == Waiting || s.camera.phase == Locked) then [s.camera.ts] else []
  }

  /** The time of a frame, if this step takes one. */
  function Shot(s: State, t: Thread): seq<nat> {
    if t == CameraThread && s.camera == Taking then [s.timestamp] else []
  }

  ghost function Shots(s: State, ts: seq<Thread>): seq<nat>
    requires Schedule(s, ts)
    decreases |ts|
  {
    if ts == [] then [] else Shot(s, ts[0]) + Shots(Step(s, ts[0]), ts[1..])
  }

  lemma {:induction false} FrameTimesSnoc(log: seq<Record>, r: Record)
    ensures FrameTimes(log + [r]) == FrameTimes(log) + if r.kind == Frame then [r.ts] else []
  {
    assert (log + [r])[..|log|] == log;
  }

  lemma {:induction false} ShotKept(s: State, t: Thread)
    requires Ready(s, t)
    ensures FrameTimes(Step(s, t).log) + Pending(Step(s, t)) == FrameTimes(s.log) + Pending(s) + Shot(s, t)
  {
    hide FrameTimes;
    match t
    case MainThread =>
      MainShoots(s);
    case CameraThread =>
      if s.camera.AddingFrame? { FrameTimesSnoc(s.log, Record(Frame, s.camera.ts)); }
      hide MainStep;
      hide WriterStep;
    case WriterThread =>
      hide MainStep;
      hide CameraStep;
    case KeyThread =>
  }

  lemma {:induction false} MainShoots(s: State)
    requires Ready(s, MainThread)
    ensures FrameTimes(MainStep(s).log) == FrameTimes(s.log) && MainStep(s).camera == s.camera
  {
    hide FrameTimes;
    if s.main.Adding? {
      FrameTimesSnoc(s.log, Record(RoundKind(s.main.k), s.timestamp));
      assert RoundKind(s.main.k) != Frame;
      hide RoundKind;
    }
    assert FrameTimes(s.log) + [] == FrameTimes(s.log);
  }

  /** Every frame in the log, in order, has the timestamp of the moment at which it was taken, however long it waited
      for the queue; and none is missing but the one in the hands of the camera thread. */
  lemma {:induction false} FramesStamped(s: State, ts: seq<Thread>)
    requires Schedule(s, ts)
    ensures var e := After(s, ts);
            FrameTimes(e.log) + Pending(e) == FrameTimes(s.log) + Pending(s) + Shots(s, ts)
    decreases |ts|
  {
    if ts != [] {
      ShotKept(s, ts[0]);
      hide Step;
      hide FrameTimes;
      hide Pending;
      hide Shot;
      FramesStamped(Step(s, ts[0]), ts[1..]);
    }
  }

  // ---------------------------------------------------------------- what is lost at the end

  /** Records a producer still enqueues when the program is being stopped: the rest of the round it is in. */
  function LeftMain(s: State): nat {
    if s.main.Adding? && s.main.k < 4 then
      if s.main.phase == Waiting || s.main.phase == Locked then 4 - s.main.k else 3 - s.main.k
    else 0
  }

  function LeftCamera(s: State): nat {
    if s.camera.Taking? || (s.camera.AddingFrame? && (s.camera.phase == Waiting || s.camera.phase == Locked)) then 1
    else 0
  }

  /** The file thread leaves its loop with its next step. */
  predicate Leaving(s: State) { s.writer == Test && s.stop && s.q == [] }

  predicate AllOut(s: State) { s.main.MainOut? && s.camera.CameraOut? && s.writer.WriterOut? }

  /** Once the program is being stopped, enqueued and still to be enqueued stay together the same; and a file
      thread that is out writes nothing. */
  lemma {:induction false} StopConserves(s: State, t: Thread)
    requires s.stop && Ready(s, t) && (s.main.Adding? ==> s.main.k < 4)
    ensures var n := Step(s, t);
            && n.stop && (n.main.Adding? ==> n.main.k < 4)
            && |n.log| + LeftMain(n) + LeftCamera(n) == |s.log| + LeftMain(s) + LeftCamera(s)
            && (s.writer.WriterOut? ==> n.writer.WriterOut? && n.written == s.written)
  {
  }

  lemma {:induction false} StopRunConserves(s: State, ts: seq<Thread>)
    requires s.stop && Schedule(s, ts) && (s.main.Adding? ==> s.main.k < 4) && s.writer.WriterOut?
    ensures var e := After(s, ts);
            |e.log| + LeftMain(e) + LeftCamera(e) == |s.log| + LeftMain(s) + LeftCamera(s) && e.written == s.written
    decreases |ts|
  {
    if ts != [] {
      StopConserves(s, ts[0]);
      hide Step;
      StopRunConserves(Step(s, ts[0]), ts[1..]);
    }
  }

  /** In a run whose file thread has left there is a step at which it left. */
  lemma {:induction false} LeavingStep(s0: State, ts: seq<Thread>) returns (before: seq<Thread>, after: seq<Thread>)
    requires Schedule(s0, ts) && !s0.writer.WriterOut? && After(s0, ts).writer.WriterOut?
    ensures ts == before + [WriterThread] + after && Schedule(s0, before) && Leaving(After(s0, before))
    decreases |ts|
  {
    if Step(s0, ts[0]).writer.WriterOut? {
      before, after := [], ts[1..];
      assert ts == [] + [WriterThread] + after;
    } else {
      var b, a := LeavingStep(Step(s0, ts[0]), ts[1..]);
      before, after := [ts[0]] + b, a;
      assert ts == [ts[0]] + ts[1..];
      assert before[1..] == b;
    }
  }

  lemma {:induction false} ScheduleSplit(s: State, a: seq<Thread>, b: seq<Thread>)
    requires Schedule(s, a + b)
    ensures Schedule(s, a) && Schedule(After(s, a), b) && After(s, a + b) == After(After(s, a), b)
    decreases |a|
  {
    if a == [] {
      assert a + b == b;
    } else {
      assert (a + b)[1..] == a[1..] + b && (a + b)[0] == a[0];
      ScheduleSplit(Step(s, a[0]), a[1..], b);
    }
  }

  lemma {:induction false} LostAfter(s0: State, before: seq<Thread>, after: seq<Thread>)
    requires Start(s0) && Schedule(s0, before + [WriterThread] + after)
    requires Schedule(s0, before) && Leaving(After(s0, before)) && AllOut(After(s0, before + [WriterThread] + after))
    ensures var at, e := After(s0, before), After(s0, before + [WriterThread] + after);
            && e.written <= e.log && |e.log| - |e.written| == LeftMain(at) + LeftCamera(at)
            && (e.written == e.log <==> LeftMain(at) == 0 && LeftCamera(at) == 0)
  {
    hide Schedule;
    hide After;
    hide Start;
    hide Inv;
    hide Step;
    hide Leaving;
    hide Rounds;
    hide FramesInTime;
    hide InRounds;
    hide Exclusive;
    hide Accounted;
    hide LeftMain;
    hide LeftCamera;
    var at := After(s0, before);
    ScheduleSplit(s0, before + [WriterThread], after);
    ScheduleSplit(s0, before, [WriterThread]);
    StartInv(s0);
    ScheduleKeeps(s0, before);
    AtExit(at);
    OneStep(at, WriterThread);
    LoggerSafe(s0, before + [WriterThread] + after);
    StopRunConserves(Step(at, WriterThread), after);
    NothingLeft(After(s0, before + [WriterThread] + after));
    SameLeft(at);
  }

  lemma {:induction false} NothingLeft(s: State)
    requires AllOut(s)
    ensures LeftMain(s) == 0 && LeftCamera(s) == 0
  {
  }

  lemma {:induction false} SameLeft(s: State)
    ensures LeftMain(s.(writer := WriterOut)) == LeftMain(s) && LeftCamera(s.(writer := WriterOut)) == LeftCamera(s)
  {
  }

  /** Exactly what the file misses, for every run in which all threads end: the records that the producers have
      still to enqueue at the step at which the file thread leaves. The file is complete if and only if the main
      loop is between rounds and the camera between frames at that moment. */
  lemma {:induction false} LostExactly(s0: State, ts: seq<Thread>) returns (before: seq<Thread>, after: seq<Thread>)
    requires Start(s0) && Schedule(s0, ts) && AllOut(After(s0, ts))
    ensures ts == before + [WriterThread] + after && Schedule(s0, before) && Leaving(After(s0, before))
    ensures var at, e := After(s0, before), After(s0, ts);
            && e.written <= e.log && |e.log| - |e.written| == LeftMain(at) + LeftCamera(at)
            && (e.written == e.log <==> LeftMain(at) == 0 && LeftCamera(at) == 0)
  {
    before, after := LeavingStep(s0, ts);
    LostAfter(s0, before, after);
  }

  /** When the file thread leaves, everything enqueued so far is in the file. */
  lemma {:induction false} AtExit(s: State)
    requires Inv(s) && Leaving(s)
    ensures s.written == s.log && (s.main.Adding? ==> s.main.k < 4) && s.stop && Ready(s, WriterThread)
    ensures var n := Step(s, WriterThread); n == s.(writer := WriterOut)
  {
    assert s.written + [] + [] == s.written;
  }

  /** The main loop adds one record undisturbed. */
  lemma {:induction false} AddUndisturbed(s: State, k: nat) returns (ts: seq<Thread>)
    requires s.main == Adding(k, Waiting) && k < 4 && s.critical == 1
    ensures Schedule(s, ts)
    ensures After(s, ts) == EnqueueRecord(s, Record(RoundKind(k), s.timestamp))
                            .(empty := s.empty + 1, main := if k < 3 then Adding(k + 1, Waiting) else RoundDone)
  {
    var m := [MainThread];
    var s1 := MainStep(s);
    var s2 := MainStep(s1);
    var s3 := MainStep(s2);
    OneStep(s, MainThread);
    OneStep(s1, MainThread);
    OneStep(s2, MainThread);
    OneStep(s3, MainThread);
    ScheduleConcat(s, m, m);
    ScheduleConcat(s, m + m, m);
    ScheduleConcat(s, m + m + m, m);
    ts := m + m + m + m;
  }

  lemma {:induction false} FinishRound(s: State, k: nat) returns (ts: seq<Thread>)
    requires s.main == Adding(k, Waiting) && k < 4 && s.critical == 1
    ensures Schedule(s, ts)
    ensures var e := After(s, ts);
            && e.main == RoundDone && |e.log| == |s.log| + 4 - k
            && e.writer == s.writer && e.written == s.written && e.stop == s.stop && e.camera == s.camera
    decreases 4 - k
  {
    ts := AddUndisturbed(s, k);
    if k < 3 {
      var rest := FinishRound(After(s, ts), k + 1);
      ScheduleConcat(s, ts, rest);
      ts := ts + rest;
    }
  }

  /** The file may miss records at the end: the file thread leaves when the program is stopped and the
      queue happens to be empty, while the main loop still finishes its round. */
  lemma {:induction false} RecordsCanBeLost(s: State) returns (ts: seq<Thread>)
    requires Start(s)
    ensures Schedule(s, ts)
    ensures var e := After(s, ts); AllOut(e) && |e.log| == 4 && e.written == []
  {
    var s1 := Step(s, MainThread);
    var s2 := Step(s1, KeyThread);
    var s3 := Step(s2, WriterThread);
    OneStep(s, MainThread);
    OneStep(s1, KeyThread);
    OneStep(s2, WriterThread);
    ScheduleConcat(s, [MainThread], [KeyThread]);
    ScheduleConcat(s, [MainThread] + [KeyThread], [WriterThread]);
    ts := [MainThread] + [KeyThread] + [WriterThread];
    var round := FinishRound(s3, 0);
    var s4 := After(s3, round);
    ScheduleConcat(s, ts, round);
    ts := ts + round;
    OneStep(s4, MainThread);
    OneStep(Step(s4, MainThread), MainThread);
    ScheduleConcat(s, ts, [MainThread]);
    ts := ts + [MainThread];
    ScheduleConcat(s, ts, [MainThread]);
    ts := ts + [MainThread];
    OneStep(After(s, ts), CameraThread);
    ScheduleConcat(s, ts, [CameraThread]);
    ts := ts + [CameraThread];
  }
}
