/** The thread pool as a protocol. */
module ThreadPools {
  // Worker threads, threads that enqueue, and the destructor take steps; between two steps another
  // thread can interfere.

  import opened Options

  /** A job; what it does besides enqueueing further jobs is of no concern here. */
  type Job = int

  /** A call of enqueue in progress. */
  datatype Call =
    | NoCall
    | WantsLock(job: Job)
    | Pushing(job: Job)     // holds the mutex
    | Notifying             // has released it, notify_one is still to come

  datatype Worker =
    | Starting              // at the top of its loop, wants the mutex
    | Checking              // holds the mutex, evaluates the condition of the wait
    | Asleep                // waits for a notification
    | Woken                 // left the wait, wants the mutex back
    | Running(ticket: nat, call: Call)
    | Exited

  /** The owner of the pool. */
  datatype Owner =
    | Using
    | WantsStopLock
    | Stopping              // holds the mutex, about to set stop
    | NotifyingAll
    | Joining
    | Gone

  datatype Thread = WorkerThread(i: nat) | ClientThread(c: nat) | OwnerThread

  /** log, started and finished record the history: all jobs ever pushed, how many of them were
      popped, and which (counted in the order of the log) were run to the end. */
  datatype Pool = Pool(
    workers: seq<Worker>,
    clients: seq<Call>,
    owner: Owner,
    jobs: seq<Job>,
    stop: bool,
    mutex: Option<Thread>,
    log: seq<Job>,
    started: nat,
    finished: set<nat>)

  function NewPool(numThreads: nat, numClients: nat): Pool {
    Pool(seq(numThreads, i => Starting), seq(numClients, i => NoCall), Using, [], false, None, [], 0, {})
  }

  datatype Step =
    | Acquire(t: Thread)
    | Check(i: nat)
    | WakeSpuriously(i: nat)
    | Finish(i: nat)
    | BeginEnqueue(t: Thread, job: Job)
    | Push(t: Thread)
    | NotifyOne(t: Thread, woken: Option<nat>)
    | BeginStop
    | SetStop
    | NotifyAll
    | EndJoin

  predicate Exists(s: Pool, t: Thread) {
    match t
    case WorkerThread(i) => i < |s.workers|
    case ClientThread(c) => c < |s.clients|
    case OwnerThread => true
  }

  /** The call of enqueue a thread is in, if it is a client or a worker that runs a job. */
  function CallOf(s: Pool, t: Thread): Option<Call>
    requires Exists(s, t)
  {
    match t
    case WorkerThread(i) => if s.workers[i].Running? then Some(s.workers[i].call) else None
    case ClientThread(c) => Some(s.clients[c])
    case OwnerThread => None
  }

  function WithCall(s: Pool, t: Thread, call: Call): Pool
    requires Exists(s, t) && CallOf(s, t).Some?
  {
    match t
    case WorkerThread(i) => s.(workers := s.workers[i := s.workers[i].(call := call)])
    case ClientThread(c) => s.(clients := s.clients[c := call])
  }

  function WithWorker(s: Pool, i: nat, w: Worker): Pool
    requires i < |s.workers|
  {
    s.(workers := s.workers[i := w])
  }

  predicate IsAsleep(s: Pool, i: nat) {
    i < |s.workers| && s.workers[i].Asleep?
  }

  function WakeAll(ws: seq<Worker>): seq<Worker> {
    seq(|ws|, i requires 0 <= i < |ws| => if ws[i].Asleep? then Woken else ws[i])
  }

  predicate AllExited(s: Pool) {
    forall i | 0 <= i < |s.workers| :: s.workers[i].Exited?
  }

  predicate AllIdle(s: Pool) {
    forall c | 0 <= c < |s.clients| :: s.clients[c].NoCall?
  }

  /** A thread that is about to lock the mutex takes it. */
  function DoAcquire(s: Pool, t: Thread): Option<Pool> {
    if !Exists(s, t) || s.mutex.Some? then None
    else
      var locked := s.(mutex := Some(t));
      if t.OwnerThread? then
        if s.owner.WantsStopLock? then Some(locked.(owner := Stopping)) else None
      else if t.WorkerThread? && (s.workers[t.i].Starting? || s.workers[t.i].Woken?) then
        Some(WithWorker(locked, t.i, Checking))
      else
        var call := CallOf(s, t);
        if call.Some? && call.value.WantsLock? then Some(WithCall(locked, t, Pushing(call.value.job))) else None
  }

  /** The wait: leave it with a job, leave it for good, or release the mutex and sleep. */
  function DoCheck(s: Pool, i: nat): Option<Pool> {
    if i >= |s.workers| || !s.workers[i].Checking? then None
    else
      var free := s.(mutex := None);
      if s.stop || s.jobs != [] then
        if s.stop && s.jobs == [] then Some(WithWorker(free, i, Exited))
        else Some(WithWorker(free.(jobs := s.jobs[1..], started := s.started + 1), i, Running(s.started, NoCall)))
      else Some(WithWorker(free, i, Asleep))
  }

  function DoWake(s: Pool, i: nat): Option<Pool> {
    if IsAsleep(s, i) then Some(WithWorker(s, i, Woken)) else None
  }

  /** The job returns. */
  function DoFinish(s: Pool, i: nat): Option<Pool> {
    if i < |s.workers| && s.workers[i].Running? && s.workers[i].call.NoCall? then
      Some(WithWorker(s.(finished := s.finished + {s.workers[i].ticket}), i, Starting))
    else None
  }

  /** A running job enqueues, or a client does while the pool is in use. */
  function DoBegin(s: Pool, t: Thread, job: Job): Option<Pool> {
    if Exists(s, t) && CallOf(s, t) == Some(NoCall) && (t.ClientThread? ==> s.owner.Using?) then
      Some(WithCall(s, t, WantsLock(job)))
    else None
  }

  function DoPush(s: Pool, t: Thread): Option<Pool> {
    if Exists(s, t) && CallOf(s, t).Some? && CallOf(s, t).value.Pushing? then
      var job := CallOf(s, t).value.job;
      Some(WithCall(s.(jobs := s.jobs + [job], log := s.log + [job], mutex := None), t, Notifying))
    else None
  }

  predicate NobodyAsleep(s: Pool) {
    forall i | 0 <= i < |s.workers| :: !s.workers[i].Asleep?
  }

  /** notify_one wakes some sleeping worker, if there is one. */
  function DoNotifyOne(s: Pool, t: Thread, woken: Option<nat>): Option<Pool> {
    if !Exists(s, t) || CallOf(s, t) != Some(Notifying) then None
    else
      var done := WithCall(s, t, NoCall);
      if woken.Some? then DoWake(done, woken.value)
      else if NobodyAsleep(s) then Some(done)
      else None
  }

  /** The owner of the pool: no client may be inside enqueue any more when the destructor starts. */
  function DoBeginStop(s: Pool): Option<Pool> {
    if s.owner.Using? && AllIdle(s) then Some(s.(owner := WantsStopLock)) else None
  }

  function DoSetStop(s: Pool): Option<Pool> {
    if s.owner.Stopping? then Some(s.(stop := true, mutex := None, owner := NotifyingAll)) else None
  }

  function DoNotifyAll(s: Pool): Option<Pool> {
    if s.owner.NotifyingAll? then Some(s.(workers := WakeAll(s.workers), owner := Joining)) else None
  }

  function DoEndJoin(s: Pool): Option<Pool> {
    if s.owner.Joining? && AllExited(s) then Some(s.(owner := Gone)) else None
  }

  /** What a step makes of a pool; None if the step is not possible. */
  function Apply(s: Pool, step: Step): Option<Pool> {
    match step
    case Acquire(t) => DoAcquire(s, t)
    case Check(i) => DoCheck(s, i)
    case WakeSpuriously(i) => DoWake(s, i)
    case Finish(i) => DoFinish(s, i)
    case BeginEnqueue(t, job) => DoBegin(s, t, job)
    case Push(t) => DoPush(s, t)
    case NotifyOne(t, woken) => DoNotifyOne(s, t, woken)
    case BeginStop => DoBeginStop(s)
    case SetStop => DoSetStop(s)
    case NotifyAll => DoNotifyAll(s)
    case EndJoin => DoEndJoin(s)
  }

  function Run(s: Pool, steps: seq<Step>): Option<Pool> {
    if steps == [] then Some(s)
    else
      var r := Run(s, steps[..|steps| - 1]);
      if r.None? then None else Apply(r.value, steps[|steps| - 1])
  }

  // ----- the invariant

  predicate HoldsLock(s: Pool, t: Thread)
    requires Exists(s, t)
  {
    || (t.OwnerThread? && s.owner.Stopping?)
    || (t.WorkerThread? && s.workers[t.i].Checking?)
    || (CallOf(s, t).Some? && CallOf(s, t).value.Pushing?)
  }

  /** The mutex is held by the one thread that is in a critical section. */
  ghost predicate Exclusive(s: Pool) {
    && (s.mutex.Some? ==> Exists(s, s.mutex.value))
    && forall t | Exists(s, t) :: HoldsLock(s, t) <==> s.mutex == Some(t)
  }

  predicate Runs(s: Pool, i: nat, k: nat) {
    i < |s.workers| && s.workers[i].Running? && s.workers[i].ticket == k
  }

  predicate IsTaken(s: Pool, k: nat) {
    k in s.finished || exists i | 0 <= i < |s.workers| :: Runs(s, i, k)
  }

  /** The queue is what was pushed and not yet popped; every popped job is finished or run by
      exactly one worker, never both. */
  ghost predicate ExactlyOnce(s: Pool) {
    && s.started <= |s.log| && s.jobs == s.log[s.started..]
    && (forall k | k in s.finished :: k < s.started)
    && (forall i, k: nat | Runs(s, i, k) :: k < s.started && k !in s.finished)
    && (forall i, j, k: nat | Runs(s, i, k) && Runs(s, j, k) :: i == j)
    && (forall k: nat | k < s.started :: IsTaken(s, k))
  }

  predicate IsAwake(s: Pool, i: nat) {
    i < |s.workers| && !s.workers[i].Asleep? && !s.workers[i].Exited?
  }

  predicate WillNotify(s: Pool, c: nat) {
    c < |s.clients| && s.clients[c].Notifying?
  }

  /** No lost wakeup: while jobs are queued some worker is awake or a notification is on its way. */
  ghost predicate Attended(s: Pool) {
    s.jobs != [] ==> (exists i :: IsAwake(s, i)) || exists c :: WillNotify(s, c)
  }

  predicate Orderly(s: Pool) {
    && |s.workers| > 0
    && (!s.owner.Using? ==> AllIdle(s))
    && (s.stop <==> s.owner.NotifyingAll? || s.owner.Joining? || s.owner.Gone?)
    && (forall i | 0 <= i < |s.workers| :: s.workers[i].Exited? ==> s.stop)
    && (forall i | 0 <= i < |s.workers| :: s.owner.Joining? || s.owner.Gone? ==> !IsAsleep(s, i))
    && (s.owner.Gone? ==> AllExited(s))
  }

  ghost predicate Inv(s: Pool) {
    Exclusive(s) && ExactlyOnce(s) && Attended(s) && Orderly(s)
  }

  lemma InitInv(numThreads: nat, numClients: nat)
    requires numThreads > 0
    ensures Inv(NewPool(numThreads, numClients))
  {}

  /** Nothing about the queue or about which worker runs which job has changed. */
  predicate SameWork(s: Pool, s': Pool) {
    && s'.jobs == s.jobs && s'.log == s.log && s'.started == s.started && s'.finished == s.finished
    && |s'.workers| == |s.workers|
    && forall i | 0 <= i < |s.workers| ::
         && (s'.workers[i].Running? <==> s.workers[i].Running?)
         && (s.workers[i].Running? ==> s'.workers[i].ticket == s.workers[i].ticket)
  }

  lemma SameWorkOnce(s: Pool, s': Pool)
    requires ExactlyOnce(s) && SameWork(s, s')
    ensures ExactlyOnce(s')
  {
    forall i, k: nat
      ensures Runs(s', i, k) <==> Runs(s, i, k)
    {}
    forall k: nat | k < s'.started
      ensures IsTaken(s', k)
    {
      assert IsTaken(s, k);
      if k !in s.finished {
        var i: nat :| i < |s.workers| && Runs(s, i, k);
        assert Runs(s', i, k);
      }
    }
  }

  /** Whoever was awake or about to notify still is. */
  lemma StillAttended(s: Pool, s': Pool)
    requires Attended(s)
    requires s'.jobs != [] ==> s.jobs != []
    requires forall i | IsAwake(s, i) :: IsAwake(s', i)
    requires forall c | WillNotify(s, c) :: WillNotify(s', c)
    ensures Attended(s')
  {
    if s'.jobs != [] {
      if i :| IsAwake(s, i) {
        assert IsAwake(s', i);
      } else {
        var c :| WillNotify(s, c);
        assert WillNotify(s', c);
      }
    }
  }

  lemma StillOrderly(s: Pool, s': Pool)
    requires Orderly(s) && s'.owner == s.owner && s'.stop == s.stop && |s'.workers| == |s.workers|
    requires !s.owner.Using? ==> s'.clients == s.clients
    requires forall i | 0 <= i < |s.workers| :: s'.workers[i].Exited? ==> s.workers[i].Exited? || s.stop
    requires forall i | 0 <= i < |s.workers| :: s'.workers[i].Asleep? ==> s.workers[i].Asleep? || !s.stop
    requires forall i | 0 <= i < |s.workers| :: s.workers[i].Exited? ==> s'.workers[i].Exited?
    ensures Orderly(s')
  {
    forall i | 0 <= i < |s'.workers|
      ensures s'.workers[i].Exited? ==> s'.stop
      ensures s'.owner.Joining? || s'.owner.Gone? ==> !IsAsleep(s', i)
    {
      assert s.owner.Joining? || s.owner.Gone? ==> !IsAsleep(s, i);
    }
  }

  lemma AcquireExclusive(s: Pool, t: Thread)
    requires Exclusive(s) && DoAcquire(s, t).Some?
    ensures Exclusive(DoAcquire(s, t).value)
  {
    var s' := DoAcquire(s, t).value;
    forall u | Exists(s', u)
      ensures HoldsLock(s', u) <==> s'.mutex == Some(u)
    {
      assert HoldsLock(s, u) <==> s.mutex == Some(u);
    }
  }

  lemma AcquireInv(s: Pool, t: Thread)
    requires Inv(s) && DoAcquire(s, t).Some?
    ensures Inv(DoAcquire(s, t).value)
  {
    var s' := DoAcquire(s, t).value;
    AcquireExclusive(s, t);
    hide Exclusive;
    SameWorkOnce(s, s');
    StillAttended(s, s');
    if t.OwnerThread? {
      assert Orderly(s');
    } else {
      StillOrderly(s, s');
    }
  }

  lemma ReleaseExclusive(s: Pool, s': Pool, t: Thread)
    requires Exclusive(s) && Exists(s, t) && HoldsLock(s, t)
    requires |s'.workers| == |s.workers| && |s'.clients| == |s.clients|
    requires s'.mutex.None? && !HoldsLock(s', t)
    requires forall u | Exists(s, u) && u != t :: HoldsLock(s', u) <==> HoldsLock(s, u)
    ensures Exclusive(s')
  {
    forall u | Exists(s', u)
      ensures !HoldsLock(s', u)
    {
      assert Exists(s, u);
      assert HoldsLock(s, u) <==> s.mutex == Some(u);
    }
  }

  lemma UnlockedExclusive(s: Pool, s': Pool)
    requires Exclusive(s)
    requires |s'.workers| == |s.workers| && |s'.clients| == |s.clients|
    requires s'.mutex == s.mutex
    requires forall u | Exists(s, u) :: HoldsLock(s', u) <==> HoldsLock(s, u)
    ensures Exclusive(s')
  {
    forall u | Exists(s', u)
      ensures HoldsLock(s', u) <==> s'.mutex == Some(u)
    {
      assert Exists(s, u);
    }
  }

  lemma StartOnce(s: Pool, i: nat)
    requires ExactlyOnce(s) && i < |s.workers| && s.workers[i].Checking? && s.jobs != []
    ensures ExactlyOnce(DoCheck(s, i).value)
  {
    var s' := DoCheck(s, i).value;
    assert s.log[s.started..][1..] == s.log[s.started + 1..];
    forall j, k: nat
      ensures Runs(s', j, k) <==> Runs(s, j, k) || (j == i && k == s.started)
    {}
    forall k: nat | k < s'.started
      ensures IsTaken(s', k)
    {
      if k == s.started {
        assert Runs(s', i, k);
      } else {
        assert IsTaken(s, k);
        if k !in s.finished {
          var j: nat :| j < |s.workers| && Runs(s, j, k);
          assert Runs(s', j, k);
        }
      }
    }
  }

  lemma CheckInv(s: Pool, i: nat)
    requires Inv(s) && DoCheck(s, i).Some?
    ensures Inv(DoCheck(s, i).value)
  {
    var s' := DoCheck(s, i).value;
    ReleaseExclusive(s, s', WorkerThread(i));
    StillOrderly(s, s');
    if s.jobs == [] {
      SameWorkOnce(s, s');
    } else {
      StartOnce(s, i);
      assert IsAwake(s', i);
    }
  }

  lemma FinishOnce(s: Pool, i: nat)
    requires ExactlyOnce(s) && DoFinish(s, i).Some?
    ensures ExactlyOnce(DoFinish(s, i).value)
    ensures s.workers[i].ticket !in s.finished
  {
    var s' := DoFinish(s, i).value;
    var done := s.workers[i].ticket;
    assert Runs(s, i, done);
    forall j, k: nat
      ensures Runs(s', j, k) <==> Runs(s, j, k) && j != i
    {}
    forall k: nat | k < s'.started
      ensures IsTaken(s', k)
    {
      assert IsTaken(s, k);
      if k !in s'.finished {
        var j: nat :| j < |s.workers| && Runs(s, j, k);
        assert Runs(s', j, k);
      }
    }
  }

  lemma PushInv(s: Pool, t: Thread)
    requires Inv(s) && DoPush(s, t).Some?
    ensures Inv(DoPush(s, t).value)
  {
    var s' := DoPush(s, t).value;
    ReleaseExclusive(s, s', t);
    StillOrderly(s, s');
    PushOnce(s, t);
    if t.WorkerThread? {
      assert IsAwake(s', t.i);
    } else {
      assert WillNotify(s', t.c);
    }
  }

  lemma PushOnce(s: Pool, t: Thread)
    requires ExactlyOnce(s) && DoPush(s, t).Some?
    ensures ExactlyOnce(DoPush(s, t).value)
  {
    var s' := DoPush(s, t).value;
    var mid := s'.(jobs := s.jobs, log := s.log);
    SameWorkOnce(s, mid);
    forall i, k: nat
      ensures Runs(s', i, k) <==> Runs(mid, i, k)
    {}
    forall k: nat | k < s'.started
      ensures IsTaken(s', k)
    {
      assert IsTaken(mid, k);
      if k !in s'.finished {
        var i: nat :| i < |mid.workers| && Runs(mid, i, k);
        assert Runs(s', i, k);
      }
    }
  }

  /** Without sleepers a notification may go unheard: the workers are then awake anyway. */
  lemma NotifyOneAttended(s: Pool, t: Thread, woken: Option<nat>)
    requires Inv(s) && DoNotifyOne(s, t, woken).Some?
    ensures Attended(DoNotifyOne(s, t, woken).value)
  {
    var s' := DoNotifyOne(s, t, woken).value;
    if woken.Some? {
      assert IsAwake(s', woken.value);
    } else if t.WorkerThread? {
      assert IsAwake(s', t.i);
    } else {
      assert !s.clients[t.c].NoCall?;
      assert !s.workers[0].Exited?;
      assert IsAwake(s', 0);
    }
  }

  /** Steps that neither take nor release the mutex, nor change the queue. */
  predicate IsQuiet(step: Step) {
    step.WakeSpuriously? || step.BeginEnqueue? || step.NotifyOne? || step.Finish?
  }

  lemma QuietExclusive(s: Pool, step: Step)
    requires Exclusive(s) && IsQuiet(step) && Apply(s, step).Some?
    ensures Exclusive(Apply(s, step).value)
  {
    hide Exclusive;
    UnlockedExclusive(s, Apply(s, step).value);
  }

  lemma QuietOrderly(s: Pool, step: Step)
    requires Orderly(s) && IsQuiet(step) && Apply(s, step).Some?
    ensures Orderly(Apply(s, step).value)
  {
    StillOrderly(s, Apply(s, step).value);
  }

  lemma QuietOnce(s: Pool, step: Step)
    requires ExactlyOnce(s) && IsQuiet(step) && Apply(s, step).Some?
    ensures ExactlyOnce(Apply(s, step).value)
  {
    hide ExactlyOnce;
    if step.Finish? {
      FinishOnce(s, step.i);
    } else {
      SameWorkOnce(s, Apply(s, step).value);
    }
  }

  lemma QuietInv(s: Pool, step: Step)
    requires Inv(s) && IsQuiet(step) && Apply(s, step).Some?
    ensures Inv(Apply(s, step).value)
  {
    hide Exclusive, ExactlyOnce, Orderly, Attended;
    QuietExclusive(s, step);
    QuietOrderly(s, step);
    QuietOnce(s, step);
    if step.NotifyOne? {
      NotifyOneAttended(s, step.t, step.woken);
    } else {
      StillAttended(s, Apply(s, step).value);
    }
  }

  lemma OwnerInv(s: Pool, step: Step)
    requires Inv(s) && Apply(s, step).Some?
    requires step.BeginStop? || step.SetStop? || step.NotifyAll? || step.EndJoin?
    ensures Inv(Apply(s, step).value)
  {
    var s' := Apply(s, step).value;
    SameWorkOnce(s, s');
    StillAttended(s, s');
    if step.SetStop? {
      ReleaseExclusive(s, s', OwnerThread);
    } else {
      UnlockedExclusive(s, s');
    }
  }

  /** Every step keeps the invariant. */
  lemma StepInv(s: Pool, step: Step)
    requires Inv(s) && Apply(s, step).Some?
    ensures Inv(Apply(s, step).value)
  {
    match step
    case Acquire(t) => AcquireInv(s, t);
    case Check(i) => CheckInv(s, i);
    case Push(t) => PushInv(s, t);
    case WakeSpuriously(_) => QuietInv(s, step);
    case Finish(_) => QuietInv(s, step);
    case BeginEnqueue(_, _) => QuietInv(s, step);
    case NotifyOne(_, _) => QuietInv(s, step);
    case BeginStop => OwnerInv(s, step);
    case SetStop => OwnerInv(s, step);
    case NotifyAll => OwnerInv(s, step);
    case EndJoin => OwnerInv(s, step);
  }

  lemma {:induction false} RunInv(s: Pool, steps: seq<Step>)
    requires Inv(s) && Run(s, steps).Some?
    ensures Inv(Run(s, steps).value)
  {
    if steps != [] {
      RunInv(s, steps[..|steps| - 1]);
      StepInv(Run(s, steps[..|steps| - 1]).value, steps[|steps| - 1]);
    }
  }

  // ----- safety over whole runs

  /** The job a step appends to the queue, and the job it hands to a worker. */
  function PushedBy(s: Pool, step: Step): seq<Job> {
    if step.Push? && DoPush(s, step.t).Some? then [CallOf(s, step.t).value.job] else []
  }

  function StartedBy(s: Pool, step: Step): seq<Job> {
    if step.Check? && DoCheck(s, step.i).Some? && s.jobs != [] then [s.jobs[0]] else []
  }

  function Pushed(s: Pool, steps: seq<Step>): seq<Job>
    requires Run(s, steps).Some?
  {
    if steps == [] then []
    else
      var front := steps[..|steps| - 1];
      Pushed(s, front) + PushedBy(Run(s, front).value, steps[|steps| - 1])
  }

  function Started(s: Pool, steps: seq<Step>): seq<Job>
    requires Run(s, steps).Some?
  {
    if steps == [] then []
    else
      var front := steps[..|steps| - 1];
      Started(s, front) + StartedBy(Run(s, front).value, steps[|steps| - 1])
  }

  lemma QueueStep(s: Pool, step: Step)
    requires Apply(s, step).Some?
    ensures s.jobs + PushedBy(s, step) == StartedBy(s, step) + Apply(s, step).value.jobs
    ensures Apply(s, step).value.log == s.log + PushedBy(s, step)
  {
    match step
    case Acquire(t) =>
    case Check(i) =>
    case WakeSpuriously(i) =>
    case Finish(i) =>
    case BeginEnqueue(t, job) =>
    case Push(t) =>
    case NotifyOne(t, woken) =>
    case BeginStop =>
    case SetStop =>
    case NotifyAll =>
    case EndJoin =>
  }

  /** First in, first out, nothing lost, nothing started twice: what was queued and what was pushed
      is what was started, in that order, followed by what is queued now. */
  lemma {:induction false} FirstInFirstOut(s: Pool, steps: seq<Step>)
    requires Run(s, steps).Some?
    ensures s.jobs + Pushed(s, steps) == Started(s, steps) + Run(s, steps).value.jobs
    ensures Run(s, steps).value.log == s.log + Pushed(s, steps)
  {
    hide Apply, PushedBy, StartedBy;
    if steps != [] {
      var front, step := steps[..|steps| - 1], steps[|steps| - 1];
      FirstInFirstOut(s, front);
      var before := Run(s, front).value;
      QueueStep(before, step);
      calc {
        s.jobs + Pushed(s, steps);
        (s.jobs + Pushed(s, front)) + PushedBy(before, step);
        Started(s, front) + (before.jobs + PushedBy(before, step));
        Started(s, steps) + Run(s, steps).value.jobs;
      }
    }
  }

  /** Once all workers have exited every job that was ever pushed has been run to its end, and the
      queue is empty. */
  lemma ExitedIsDrained(s: Pool)
    requires Inv(s) && AllExited(s)
    ensures s.jobs == [] && forall k: nat :: k in s.finished <==> k < |s.log|
  {
    assert s.workers[0].Exited?;
    forall k: nat | k < s.started
      ensures k in s.finished
    {
      assert IsTaken(s, k);
    }
  }

  /** Destroying a pool finishes everything: every job pushed in the run, before or after the
      destructor started, was started, in the order of the pushes, and has finished. */
  lemma DestructionDrains(numThreads: nat, numClients: nat, steps: seq<Step>)
    requires numThreads > 0
    requires Run(NewPool(numThreads, numClients), steps).Some?
    requires Run(NewPool(numThreads, numClients), steps).value.owner.Gone?
    ensures var s := Run(NewPool(numThreads, numClients), steps).value;
      && Started(NewPool(numThreads, numClients), steps) == Pushed(NewPool(numThreads, numClients), steps)
      && s.log == Pushed(NewPool(numThreads, numClients), steps)
      && forall k: nat :: k in s.finished <==> k < |s.log|
  {
    var init := NewPool(numThreads, numClients);
    InitInv(numThreads, numClients);
    RunInv(init, steps);
    ExitedIsDrained(Run(init, steps).value);
    FirstInFirstOut(init, steps);
  }

  /** Nothing that was pushed is ever popped. */
  predicate Unattended(s: Pool) {
    s.workers == [] && s.started == 0 && s.finished == {} && s.jobs == s.log && (s.clients == [] ==> s.log == [])
  }

  lemma UnattendedStep(s: Pool, step: Step)
    requires Unattended(s) && Apply(s, step).Some?
    ensures Unattended(Apply(s, step).value)
  {
    match step
    case Acquire(t) =>
    case Check(i) =>
    case WakeSpuriously(i) =>
    case Finish(i) =>
    case BeginEnqueue(t, job) =>
    case Push(t) =>
    case NotifyOne(t, woken) =>
    case BeginStop =>
    case SetStop =>
    case NotifyAll =>
    case EndJoin =>
  }

  /** Without workers every job that was pushed stays in the queue, over every run. */
  lemma {:induction false} NoWorkersKeepJobs(numClients: nat, steps: seq<Step>)
    requires Run(NewPool(0, numClients), steps).Some?
    ensures Unattended(Run(NewPool(0, numClients), steps).value)
  {
    if steps != [] {
      var front := steps[..|steps| - 1];
      NoWorkersKeepJobs(numClients, front);
      UnattendedStep(Run(NewPool(0, numClients), front).value, steps[|steps| - 1]);
    }
  }

  predicate AllFinished(s: Pool) {
    && (forall k | k in s.finished :: k < |s.log|)
    && (forall k: nat | k < |s.log| :: k in s.finished)
  }

  /** Whatever happens, once the destructor has returned no pushed job is left undone. */
  ghost predicate FinishesAll(numThreads: nat, numClients: nat) {
    forall steps | IsGone(Run(NewPool(numThreads, numClients), steps)) ::
      AllFinished(Run(NewPool(numThreads, numClients), steps).value)
  }

  predicate IsGone(r: Option<Pool>) {
    r.Some? && r.value.owner.Gone?
  }

  /** The destructor can be relied on exactly if there is a worker, or nobody to enqueue. */
  lemma DestructorFinishesAll(numThreads: nat, numClients: nat)
    ensures FinishesAll(numThreads, numClients) <==> numThreads > 0 || numClients == 0
  {
    forall steps | IsGone(Run(NewPool(numThreads, numClients), steps)) && (numThreads > 0 || numClients == 0)
      ensures AllFinished(Run(NewPool(numThreads, numClients), steps).value)
    {
      if numThreads > 0 {
        DestructionDrains(numThreads, numClients, steps);
      } else {
        NoWorkersKeepJobs(numClients, steps);
        SameClients(numThreads, numClients, steps);
      }
    }
    if numThreads == 0 && numClients > 0 {
      NoWorkersLoseJobs(numClients, 0);
      var s := Run(NewPool(0, numClients), EnqueueAndDestroy(0)).value;
      assert 0 < |s.log| && 0 !in s.finished;
    }
  }

  lemma {:induction false} SameClients(numThreads: nat, numClients: nat, steps: seq<Step>)
    requires Run(NewPool(numThreads, numClients), steps).Some?
    ensures |Run(NewPool(numThreads, numClients), steps).value.clients| == numClients
  {
    if steps != [] {
      var front := steps[..|steps| - 1];
      SameClients(numThreads, numClients, front);
      ClientsStay(Run(NewPool(numThreads, numClients), front).value, steps[|steps| - 1]);
    }
  }

  lemma ClientsStay(s: Pool, step: Step)
    requires Apply(s, step).Some?
    ensures |Apply(s, step).value.clients| == |s.clients|
  {}

  /** The steps of a client that enqueues, and of the owner that then destroys the pool. */
  function EnqueueAndDestroy(job: Job): seq<Step> {
    var c := ClientThread(0);
    [BeginEnqueue(c, job), Acquire(c), Push(c), NotifyOne(c, None),
     BeginStop, Acquire(OwnerThread), SetStop, NotifyAll, EndJoin]
  }

  /** A pool without workers whose clients other than the first rest. */
  function Workless(more: nat, call: Call, owner: Owner, jobs: seq<Job>, stop: bool, mutex: Option<Thread>): Pool {
    Pool([], [call] + seq(more, i => NoCall), owner, jobs, stop, mutex, jobs, 0, {})
  }

  lemma EnqueueWithoutWorkers(more: nat, job: Job)
    ensures NewPool(0, more + 1) == Workless(more, NoCall, Using, [], false, None)
    ensures var c := ClientThread(0);
      && Apply(Workless(more, NoCall, Using, [], false, None), BeginEnqueue(c, job)) == Some(Workless(more, WantsLock(job), Using, [], false, None))
      && Apply(Workless(more, WantsLock(job), Using, [], false, None), Acquire(c)) == Some(Workless(more, Pushing(job), Using, [], false, Some(c)))
      && Apply(Workless(more, Pushing(job), Using, [], false, Some(c)), Push(c)) == Some(Workless(more, Notifying, Using, [job], false, None))
      && Apply(Workless(more, Notifying, Using, [job], false, None), NotifyOne(c, None)) == Some(Workless(more, NoCall, Using, [job], false, None))
  {
    assert forall x: Call, y: Call, rest: seq<Call> :: ([x] + rest)[0 := y] == [y] + rest;
    assert [] + [job] == [job];
    assert seq(more + 1, i => NoCall) == [NoCall] + seq(more, i => NoCall);
  }

  lemma DestroyWithoutWorkers(more: nat, jobs: seq<Job>)
    ensures Apply(Workless(more, NoCall, Using, jobs, false, None), BeginStop)
         == Some(Workless(more, NoCall, WantsStopLock, jobs, false, None))
    ensures Apply(Workless(more, NoCall, WantsStopLock, jobs, false, None), Acquire(OwnerThread))
         == Some(Workless(more, NoCall, Stopping, jobs, false, Some(OwnerThread)))
    ensures Apply(Workless(more, NoCall, Stopping, jobs, false, Some(OwnerThread)), SetStop)
         == Some(Workless(more, NoCall, NotifyingAll, jobs, true, None))
    ensures Apply(Workless(more, NoCall, NotifyingAll, jobs, true, None), NotifyAll)
         == Some(Workless(more, NoCall, Joining, jobs, true, None))
    ensures Apply(Workless(more, NoCall, Joining, jobs, true, None), EndJoin)
         == Some(Workless(more, NoCall, Gone, jobs, true, None))
  {
    assert WakeAll([]) == [];
  }

  /** Without workers the destructor returns although a job was never run. */
  lemma NoWorkersLoseJobs(numClients: nat, job: Job)
    requires numClients > 0
    ensures var r := Run(NewPool(0, numClients), EnqueueAndDestroy(job));
      IsGone(r) && r.value.jobs == [job] && r.value.log == [job] && r.value.finished == {}
  {
    hide Apply, NewPool;
    var s0, all := NewPool(0, numClients), EnqueueAndDestroy(job);
    EnqueueWithoutWorkers(numClients - 1, job);
    DestroyWithoutWorkers(numClients - 1, [job]);
    RunPrefix(s0, all, 0);
    RunPrefix(s0, all, 1);
    RunPrefix(s0, all, 2);
    RunPrefix(s0, all, 3);
    RunPrefix(s0, all, 4);
    RunPrefix(s0, all, 5);
    RunPrefix(s0, all, 6);
    RunPrefix(s0, all, 7);
    RunPrefix(s0, all, 8);
    assert all[..9] == all;
  }

  lemma RunPrefix(s: Pool, steps: seq<Step>, n: nat)
    requires n < |steps|
    ensures Run(s, steps[..n]).Some? ==> Run(s, steps[..n + 1]) == Apply(Run(s, steps[..n]).value, steps[n])
  {
    assert steps[..n + 1][..n] == steps[..n];
  }

  // ----- progress

  /** Nothing is left to do: no job, no call in progress, and no destructor halfway. */
  predicate Quiet(s: Pool) {
    s.jobs == [] && AllIdle(s) && (s.owner.Using? || s.owner.Gone?) && forall k | 0 <= k < |s.log| :: k in s.finished
  }

  /** The steps the pool takes by itself: neither new work nor a wakeup out of nothing. */
  predicate Productive(step: Step) {
    !step.WakeSpuriously? && !step.BeginEnqueue? && !step.BeginStop?
  }

  /** The thread that holds the mutex can go on. */
  lemma HolderMoves(s: Pool) returns (step: Step)
    requires Inv(s) && s.mutex.Some?
    ensures Productive(step) && Apply(s, step).Some?
  {
    var t := s.mutex.value;
    assert HoldsLock(s, t);
    if t.OwnerThread? {
      step := SetStop;
    } else if t.WorkerThread? && s.workers[t.i].Checking? {
      step := Check(t.i);
    } else {
      step := Push(t);
    }
  }

  lemma CallMoves(s: Pool, t: Thread) returns (step: Step)
    requires Inv(s) && s.mutex.None? && Exists(s, t) && CallOf(s, t).Some? && CallOf(s, t) != Some(NoCall)
    ensures Productive(step) && Apply(s, step).Some?
  {
    assert !HoldsLock(s, t);
    if CallOf(s, t).value.WantsLock? {
      step := Acquire(t);
    } else if NobodyAsleep(s) {
      step := NotifyOne(t, None);
    } else {
      var i: nat :| i < |s.workers| && s.workers[i].Asleep?;
      step := NotifyOne(t, Some(i));
      assert IsAsleep(WithCall(s, t, NoCall), i);
    }
  }

  lemma WorkerMoves(s: Pool, i: nat) returns (step: Step)
    requires Inv(s) && s.mutex.None? && IsAwake(s, i)
    ensures Productive(step) && Apply(s, step).Some?
  {
    assert !HoldsLock(s, WorkerThread(i));
    if s.workers[i].Running? {
      if s.workers[i].call.NoCall? {
        step := Finish(i);
      } else {
        step := CallMoves(s, WorkerThread(i));
      }
    } else {
      step := Acquire(WorkerThread(i));
    }
  }

  /** No deadlock: unless everything is done, some thread can go on. */
  lemma SomebodyMoves(s: Pool) returns (step: Step)
    requires Inv(s) && !Quiet(s)
    ensures Productive(step) && Apply(s, step).Some?
  {
    if s.mutex.Some? {
      step := HolderMoves(s);
    } else if s.owner.WantsStopLock? {
      step := Acquire(OwnerThread);
    } else if s.owner.NotifyingAll? {
      step := NotifyAll;
    } else if !AllIdle(s) {
      var c: nat :| c < |s.clients| && !s.clients[c].NoCall?;
      step := CallMoves(s, ClientThread(c));
    } else if i :| IsAwake(s, i) {
      step := WorkerMoves(s, i);
    } else {
      assert !HoldsLock(s, OwnerThread);
      assert s.jobs == [];
      forall k: nat | k < |s.log|
        ensures k in s.finished
      {
        assert IsTaken(s, k);
        if i: nat :| i < |s.workers| && Runs(s, i, k) {
          assert IsAwake(s, i);
        }
      }
      assert s.owner.Joining?;
      assert AllExited(s) by {
        forall i: nat | i < |s.workers|
          ensures s.workers[i].Exited?
        {
          assert !IsAwake(s, i) && !IsAsleep(s, i);
        }
      }
      step := EndJoin;
    }
  }

  function CallRank(call: Call): nat {
    match call
    case NoCall => 0
    case WantsLock(_) => 8
    case Pushing(_) => 7
    case Notifying => 3
  }

  function WorkerRank(w: Worker): nat {
    match w
    case Starting => 2
    case Checking => 1
    case Asleep => 0
    case Woken => 2
    case Running(_, call) => 3 + CallRank(call)
    case Exited => 0
  }

  function WorkersRank(ws: seq<Worker>): nat {
    if ws == [] then 0 else WorkersRank(ws[..|ws| - 1]) + WorkerRank(ws[|ws| - 1])
  }

  function ClientsRank(cs: seq<Call>): nat {
    if cs == [] then 0 else ClientsRank(cs[..|cs| - 1]) + CallRank(cs[|cs| - 1])
  }

  function OwnerRank(o: Owner, n: nat): nat {
    match o
    case Using => 5 + 2 * n
    case WantsStopLock => 4 + 2 * n
    case Stopping => 3 + 2 * n
    case NotifyingAll => 2 + 2 * n
    case Joining => 1
    case Gone => 0
  }

  /** How much is left to do. */
  function Work(s: Pool): nat {
    WorkersRank(s.workers) + ClientsRank(s.clients) + OwnerRank(s.owner, |s.workers|) + 3 * |s.jobs|
  }

  lemma {:induction false} WorkersUpdate(ws: seq<Worker>, i: nat, w: Worker)
    requires i < |ws|
    ensures WorkersRank(ws[i := w]) == WorkersRank(ws) - WorkerRank(ws[i]) + WorkerRank(w)
  {
    if i == |ws| - 1 {
      assert ws[i := w][..i] == ws[..i];
    } else {
      WorkersUpdate(ws[..|ws| - 1], i, w);
      assert ws[i := w][..|ws| - 1] == ws[..|ws| - 1][i := w];
    }
  }

  lemma {:induction false} ClientsUpdate(cs: seq<Call>, c: nat, call: Call)
    requires c < |cs|
    ensures ClientsRank(cs[c := call]) == ClientsRank(cs) - CallRank(cs[c]) + CallRank(call)
  {
    if c == |cs| - 1 {
      assert cs[c := call][..c] == cs[..c];
    } else {
      ClientsUpdate(cs[..|cs| - 1], c, call);
      assert cs[c := call][..|cs| - 1] == cs[..|cs| - 1][c := call];
    }
  }

  lemma {:induction false} WakeAllRank(ws: seq<Worker>)
    ensures WorkersRank(WakeAll(ws)) <= WorkersRank(ws) + 2 * |ws|
  {
    if ws != [] {
      WakeAllRank(ws[..|ws| - 1]);
      assert WakeAll(ws)[..|ws| - 1] == WakeAll(ws[..|ws| - 1]);
    }
  }

  lemma WithCallWork(s: Pool, t: Thread, call: Call)
    requires Exists(s, t) && CallOf(s, t).Some?
    ensures Work(WithCall(s, t, call)) == Work(s) - CallRank(CallOf(s, t).value) + CallRank(call)
    ensures |WithCall(s, t, call).workers| == |s.workers|
  {
    if t.WorkerThread? {
      WorkersUpdate(s.workers, t.i, s.workers[t.i].(call := call));
    } else {
      ClientsUpdate(s.clients, t.c, call);
    }
  }

  lemma WithWorkerWork(s: Pool, i: nat, w: Worker)
    requires i < |s.workers|
    ensures Work(WithWorker(s, i, w)) == Work(s) - WorkerRank(s.workers[i]) + WorkerRank(w)
  {
    WorkersUpdate(s.workers, i, w);
  }

  lemma AcquireWork(s: Pool, t: Thread)
    requires DoAcquire(s, t).Some?
    ensures Work(DoAcquire(s, t).value) < Work(s)
  {
    var locked := s.(mutex := Some(t));
    if t.WorkerThread? && (s.workers[t.i].Starting? || s.workers[t.i].Woken?) {
      WithWorkerWork(locked, t.i, Checking);
    } else if !t.OwnerThread? {
      WithCallWork(locked, t, Pushing(CallOf(s, t).value.job));
    }
  }

  lemma CheckWork(s: Pool, i: nat)
    requires DoCheck(s, i).Some?
    ensures Work(DoCheck(s, i).value) < Work(s)
  {
    var free := s.(mutex := None);
    if s.stop && s.jobs == [] {
      WithWorkerWork(free, i, Exited);
    } else if s.jobs != [] {
      WithWorkerWork(free.(jobs := s.jobs[1..], started := s.started + 1), i, Running(s.started, NoCall));
    } else {
      WithWorkerWork(free, i, Asleep);
    }
  }

  lemma CallWork(s: Pool, step: Step)
    requires step.Push? || step.NotifyOne?
    requires Apply(s, step).Some?
    ensures Work(Apply(s, step).value) < Work(s)
  {
    var t := step.t;
    if step.Push? {
      var job := CallOf(s, t).value.job;
      WithCallWork(s.(jobs := s.jobs + [job], log := s.log + [job], mutex := None), t, Notifying);
    } else {
      WithCallWork(s, t, NoCall);
      if step.woken.Some? {
        WithWorkerWork(WithCall(s, t, NoCall), step.woken.value, Woken);
      }
    }
  }

  /** Every step lessens the work, except that a new call adds to it and so does a spurious wakeup. */
  lemma StepWork(s: Pool, step: Step)
    requires Apply(s, step).Some?
    ensures Work(Apply(s, step).value)
         <= Work(s) - 1 + (if step.BeginEnqueue? then 9 else if step.WakeSpuriously? then 3 else 0)
  {
    hide CallOf, WithCall, DoAcquire, DoCheck, DoPush, DoNotifyOne, WithWorker;
    match step
    case Acquire(t) => AcquireWork(s, t);
    case Check(i) => CheckWork(s, i);
    case WakeSpuriously(i) => WithWorkerWork(s, i, Woken);
    case Finish(i) => WithWorkerWork(s.(finished := s.finished + {s.workers[i].ticket}), i, Starting);
    case BeginEnqueue(t, job) => WithCallWork(s, t, WantsLock(job));
    case Push(t) => CallWork(s, step);
    case NotifyOne(t, woken) => CallWork(s, step);
    case BeginStop =>
    case SetStop =>
    case NotifyAll => WakeAllRank(s.workers);
    case EndJoin =>
  }

  function Calls(steps: seq<Step>): nat {
    if steps == [] then 0
    else Calls(steps[..|steps| - 1]) + if steps[|steps| - 1].BeginEnqueue? then 1 else 0
  }

  function Spurious(steps: seq<Step>): nat {
    if steps == [] then 0
    else Spurious(steps[..|steps| - 1]) + if steps[|steps| - 1].WakeSpuriously? then 1 else 0
  }

  /** A run is no longer than its calls of enqueue and its spurious wakeups allow: with finitely
      many of them the pool comes to rest, and it only rests when everything is done. */
  lemma {:induction false} RunsAreBounded(s: Pool, steps: seq<Step>)
    requires Run(s, steps).Some?
    ensures |steps| + Work(Run(s, steps).value) <= Work(s) + 9 * Calls(steps) + 3 * Spurious(steps)
  {
    if steps != [] {
      var front, step := steps[..|steps| - 1], steps[|steps| - 1];
      RunsAreBounded(s, front);
      StepWork(Run(s, front).value, step);
    }
  }

  // ----- nobody is refused

  lemma RunSnoc(s: Pool, steps: seq<Step>, step: Step)
    ensures Run(s, steps + [step]) == if Run(s, steps).None? then None else Apply(Run(s, steps).value, step)
  {
    assert (steps + [step])[..|steps|] == steps;
  }

  lemma {:induction false} RunAppend(s: Pool, a: seq<Step>, b: seq<Step>)
    requires Run(s, a).Some?
    ensures Run(s, a + b) == Run(Run(s, a).value, b)
  {
    if b == [] {
      assert a + b == a;
    } else {
      RunAppend(s, a, b[..|b| - 1]);
      RunSnoc(s, a + b[..|b| - 1], b[|b| - 1]);
      assert a + b == (a + b[..|b| - 1]) + [b[|b| - 1]];
    }
  }

  lemma ReleasingExclusive(s: Pool, step: Step)
    requires Exclusive(s) && Apply(s, step).Some?
    requires step.Check? || step.Push? || step.SetStop?
    ensures Exclusive(Apply(s, step).value)
  {
    var t := if step.Check? then WorkerThread(step.i) else if step.Push? then step.t else OwnerThread;
    ReleaseExclusive(s, Apply(s, step).value, t);
  }

  /** Mutual exclusion does not depend on there being a worker. */
  lemma StepExclusive(s: Pool, step: Step)
    requires Exclusive(s) && Apply(s, step).Some?
    ensures Exclusive(Apply(s, step).value)
  {
    hide Exclusive;
    match step
    case Acquire(t) => AcquireExclusive(s, t);
    case Check(_) => ReleasingExclusive(s, step);
    case Push(_) => ReleasingExclusive(s, step);
    case SetStop => ReleasingExclusive(s, step);
    case WakeSpuriously(_) => QuietExclusive(s, step);
    case Finish(_) => QuietExclusive(s, step);
    case BeginEnqueue(_, _) => QuietExclusive(s, step);
    case NotifyOne(_, _) => QuietExclusive(s, step);
    case BeginStop => UnlockedExclusive(s, Apply(s, step).value);
    case NotifyAll => UnlockedExclusive(s, Apply(s, step).value);
    case EndJoin => UnlockedExclusive(s, Apply(s, step).value);
  }

  lemma {:induction false} RunExclusive(numThreads: nat, numClients: nat, steps: seq<Step>)
    requires Run(NewPool(numThreads, numClients), steps).Some?
    ensures Exclusive(Run(NewPool(numThreads, numClients), steps).value)
  {
    if steps != [] {
      var front := steps[..|steps| - 1];
      RunExclusive(numThreads, numClients, front);
      StepExclusive(Run(NewPool(numThreads, numClients), front).value, steps[|steps| - 1]);
    }
  }

  /** The thread in the critical section leaves it with its next step, whatever the others do. */
  lemma HolderReleases(s: Pool, t: Thread) returns (step: Step)
    requires Exclusive(s) && s.mutex.Some? && Exists(s, t) && !HoldsLock(s, t)
    ensures Apply(s, step).Some?
    ensures var s' := Apply(s, step).value;
      && s'.mutex.None? && Exists(s', t) && CallOf(s', t) == CallOf(s, t)
      && s.log <= s'.log
  {
    var u := s.mutex.value;
    assert HoldsLock(s, u);
    if u.OwnerThread? {
      step := SetStop;
    } else if u.WorkerThread? && s.workers[u.i].Checking? {
      step := Check(u.i);
    } else {
      step := Push(u);
    }
  }

  /** Who may enqueue now: a running job, or a client of a pool that is in use. */
  predicate MayEnqueue(s: Pool, t: Thread) {
    Exists(s, t) && CallOf(s, t) == Some(NoCall) && (t.ClientThread? ==> s.owner.Using?)
  }

  lemma LockAndPush(s: Pool, t: Thread, job: Job)
    requires s.mutex.None? && Exists(s, t) && CallOf(s, t) == Some(WantsLock(job))
    ensures var r := Run(s, [Acquire(t), Push(t)]); r.Some? && r.value.log == s.log + [job]
  {
    RunSnoc(s, [], Acquire(t));
    RunSnoc(s, [Acquire(t)], Push(t));
    assert [] + [Acquire(t)] == [Acquire(t)] && [Acquire(t)] + [Push(t)] == [Acquire(t), Push(t)];
  }

  /** Who waits for the mutex to enqueue gets it and brings its job into the queue. */
  lemma WaitingSucceeds(s: Pool, t: Thread, job: Job) returns (steps: seq<Step>)
    requires Exclusive(s) && Exists(s, t) && CallOf(s, t) == Some(WantsLock(job))
    ensures Run(s, steps).Some?
    ensures var log := Run(s, steps).value.log; s.log < log && log[|log| - 1] == job
  {
    steps := [];
    if s.mutex.Some? {
      var step := HolderReleases(s, t);
      RunSnoc(s, [], step);
      steps := [] + [step];
    }
    var mid := Run(s, steps).value;
    hide Apply, Exclusive;
    LockAndPush(mid, t, job);
    RunAppend(s, steps, [Acquire(t), Push(t)]);
    steps := steps + [Acquire(t), Push(t)];
  }

  lemma BeginWaits(s: Pool, t: Thread, job: Job)
    requires MayEnqueue(s, t)
    ensures Apply(s, BeginEnqueue(t, job)).Some?
    ensures var s' := Apply(s, BeginEnqueue(t, job)).value;
      Exists(s', t) && CallOf(s', t) == Some(WantsLock(job)) && s'.log == s.log
  {}

  lemma RunOne(s: Pool, step: Step)
    ensures Run(s, [step]) == Apply(s, step)
  {
    RunSnoc(s, [], step);
    assert [] + [step] == [step];
  }

  /** Whoever may enqueue can start at once, with any job, and can bring it into the queue: no state
      of the queue, of the workers or of other threads stands in the way. */
  lemma EnqueueSucceeds(s: Pool, t: Thread, job: Job) returns (steps: seq<Step>)
    requires Exclusive(s) && MayEnqueue(s, t)
    ensures steps != [] && steps[0] == BeginEnqueue(t, job)
    ensures Run(s, steps).Some?
    ensures var log := Run(s, steps).value.log; s.log < log && log[|log| - 1] == job
  {
    hide Exclusive, Apply, MayEnqueue, CallOf, Run;
    var begin := BeginEnqueue(t, job);
    BeginWaits(s, t, job);
    StepExclusive(s, begin);
    RunOne(s, begin);
    var rest := WaitingSucceeds(Apply(s, begin).value, t, job);
    RunAppend(s, [begin], rest);
    steps := [begin] + rest;
  }

  /** In every state a pool can get into, with workers or without. */
  lemma NobodyIsRefused(numThreads: nat, numClients: nat, before: seq<Step>, t: Thread, job: Job) returns (steps: seq<Step>)
    requires Run(NewPool(numThreads, numClients), before).Some?
    requires MayEnqueue(Run(NewPool(numThreads, numClients), before).value, t)
    ensures steps != [] && steps[0] == BeginEnqueue(t, job)
    ensures var r := Run(NewPool(numThreads, numClients), before + steps);
      r.Some? && r.value.log != [] && r.value.log[|r.value.log| - 1] == job
  {
    hide Exclusive, Apply, MayEnqueue;
    var init := NewPool(numThreads, numClients);
    RunExclusive(numThreads, numClients, before);
    steps := EnqueueSucceeds(Run(init, before).value, t, job);
    RunAppend(init, before, steps);
  }

  /** A new pool whose queue has been filled before any worker came to look at it. */
  function Filled(numThreads: nat, numClients: nat, jobs: seq<Job>): Pool {
    NewPool(numThreads, numClients).(jobs := jobs, log := jobs)
  }

  lemma FillOneMore(numThreads: nat, numClients: nat, jobs: seq<Job>, job: Job)
    requires numClients > 0
    ensures var c := ClientThread(0);
      Run(Filled(numThreads, numClients, jobs), [BeginEnqueue(c, job), Acquire(c), Push(c), NotifyOne(c, None)])
        == Some(Filled(numThreads, numClients, jobs + [job]))
  {
    var c, s := ClientThread(0), Filled(numThreads, numClients, jobs);
    var s1, s2, s3 := WithCall(s, c, WantsLock(job)), WithCall(s.(mutex := Some(c)), c, Pushing(job)),
      WithCall(s.(jobs := jobs + [job], log := jobs + [job]), c, Notifying);
    assert Apply(s, BeginEnqueue(c, job)) == Some(s1);
    assert s1.clients[0 := Pushing(job)] == s2.clients;
    assert Apply(s1, Acquire(c)) == Some(s2);
    assert s2.clients[0 := Notifying] == s3.clients;
    assert Apply(s2, Push(c)) == Some(s3);
    assert s3.clients[0 := NoCall] == s.clients;
    assert Apply(s3, NotifyOne(c, None)) == Some(Filled(numThreads, numClients, jobs + [job]));
    hide Apply, Filled;
    var all := [BeginEnqueue(c, job), Acquire(c), Push(c), NotifyOne(c, None)];
    RunPrefix(s, all, 0);
    RunPrefix(s, all, 1);
    RunPrefix(s, all, 2);
    RunPrefix(s, all, 3);
    assert all[..4] == all;
  }

  /** The queue is unbounded: whatever is enqueued one after the other is queued, in order, even if no
      worker starts any of it meanwhile. */
  lemma {:induction false} QueueIsUnbounded(numThreads: nat, numClients: nat, jobs: seq<Job>) returns (steps: seq<Step>)
    requires numClients > 0
    ensures Run(NewPool(numThreads, numClients), steps).Some?
    ensures var s := Run(NewPool(numThreads, numClients), steps).value; s.jobs == jobs && s.log == jobs && s.started == 0
    ensures Run(NewPool(numThreads, numClients), steps) == Some(Filled(numThreads, numClients, jobs))
  {
    if jobs == [] {
      steps := [];
    } else {
      var front, job, c := jobs[..|jobs| - 1], jobs[|jobs| - 1], ClientThread(0);
      var more := [BeginEnqueue(c, job), Acquire(c), Push(c), NotifyOne(c, None)];
      steps := QueueIsUnbounded(numThreads, numClients, front);
      FillOneMore(numThreads, numClients, front, job);
      RunAppend(NewPool(numThreads, numClients), steps, more);
      assert front + [job] == jobs;
      steps := steps + more;
    }
  }

  lemma OwnerGoesOn(s: Pool, step: Step)
    requires Apply(s, step).Some? && !s.owner.Using?
    ensures !Apply(s, step).value.owner.Using?
  {}

  /** From wherever it is, a pool can finish everything that was enqueued. */
  lemma {:induction false} CanSettle(s: Pool) returns (steps: seq<Step>)
    requires Inv(s)
    ensures Run(s, steps).Some?
    ensures var s' := Run(s, steps).value; Inv(s') && Quiet(s') && (!s.owner.Using? ==> !s'.owner.Using?)
    decreases Work(s)
  {
    hide Inv, Quiet, Apply, Work;
    steps := [];
    if !Quiet(s) {
      var step := SomebodyMoves(s);
      var s' := Apply(s, step).value;
      StepWork(s, step);
      StepInv(s, step);
      if !s.owner.Using? {
        OwnerGoesOn(s, step);
      }
      var rest := CanSettle(s');
      RunSnoc(s, [], step);
      RunAppend(s, [step], rest);
      assert [] + [step] == [step];
      steps := [step] + rest;
    }
  }

  /** From every state of every pool with a worker, the destructor can be started and can return. */
  lemma CanBeDestroyed(numThreads: nat, numClients: nat, before: seq<Step>) returns (steps: seq<Step>)
    requires numThreads > 0 && Run(NewPool(numThreads, numClients), before).Some?
    ensures IsGone(Run(NewPool(numThreads, numClients), before + steps))
  {
    var init := NewPool(numThreads, numClients);
    InitInv(numThreads, numClients);
    RunInv(init, before);
    var s := Run(init, before).value;
    var first := CanSettle(s);
    var s1 := Run(s, first).value;
    steps := first;
    if s1.owner.Using? {
      assert Apply(s1, BeginStop) == Some(s1.(owner := WantsStopLock));
      StepInv(s1, BeginStop);
      var s2 := Apply(s1, BeginStop).value;
      var rest := CanSettle(s2);
      RunSnoc(s, first, BeginStop);
      RunAppend(s, first + [BeginStop], rest);
      steps := first + [BeginStop] + rest;
    }
    RunAppend(init, before, steps);
  }
}
