/** The thread pool as interleaved steps of its workers, of the callers of addJob, and of one caller of joinAll. */
module ThreadPool {

  datatype Job = Job(id: nat, priority: int)

  /** What next_job hands out: a queued job, or the no-op given out once the pool stops. */
  datatype Task = Queued(job: Job) | NoOp

  /** The step a worker takes next. */
  datatype Worker =
    | Looping                // while(!this->stop)
    | Waiting                // lock jobsMutex and wait for a job or for stop
    | Awake                  // jobsMutex held: if(!this->stop)
    | Granting               // jobsMutex held: jobsLeft += 1
    | TakingBack             // jobsMutex held: jobsDone -= 1
    | Ready(task: Task)      // busyThreads += 1
    | Running(task: Task)    // job(threadNum)
    | Ran(task: Task)        // busyThreads -= 1
    | Counting(task: Task)   // jobsPerThread[threadNum] += 1
    | Leaving(task: Task)    // jobsLeft -= 1
    | Finishing(task: Task)  // jobsDone += 1
    | Exited

  /** The step a caller of addJob takes next. */
  datatype Producer =
    | Idle
    | Asking(job: Job)       // if(this->jobsLeft >= maxQueueSize)
    | Admitted(job: Job)     // lock jobsMutex and push
    | Pushed                 // jobsMutex held: jobsLeft += 1

  /** The step the caller of joinAll takes next. */
  datatype Joiner =
    | Away
    | Asked                  // waitAll: if(this->jobsLeft > 0)
    | Blocked                // waitAll: wait until jobsLeft == 0
    | Stopping               // this->stop = true
    | Joining                // join every thread
    | Joined

  datatype Owner = Nobody | ByWorker(i: nat) | ByProducer(p: nat)

  /** The shared state, the program counters, and the history of accepted jobs, runs and no-ops. */
  datatype Pool = Pool(
    maxQueueSize: nat,
    jobs: multiset<Job>,
    mutex: Owner,
    jobsLeft: int,
    jobsDone: int,
    busyThreads: int,
    stop: bool,
    jobsPerThread: seq<int>,
    workers: seq<Worker>,
    producers: seq<Producer>,
    joiner: Joiner,
    accepted: multiset<Job>,
    ran: seq<Job>,
    noOps: int
  )

  datatype Action =
    | Work(i: nat, top: Job)
    | Call(p: nat, job: Job)
    | Produce(p: nat)
    | JoinAll(waitForAll: bool)
    | Join

  /** std::atomic_int of the queue limit: a 64-bit size narrowed to 32 bits. */
  function QueueLimit(maxQueueSize: nat): (limit: int)
    ensures maxQueueSize < 0x8000_0000 ==> limit == maxQueueSize
    ensures limit <= maxQueueSize
  {
    var low := maxQueueSize % 0x1_0000_0000;
    if low < 0x8000_0000 then low else low - 0x1_0000_0000
  }

  ghost predicate Initial(s: Pool) {
    && s.jobs == multiset{} && s.mutex == Nobody && !s.stop
    && s.jobsLeft == 0 && s.jobsDone == 0 && s.busyThreads == 0
    && |s.jobsPerThread| == |s.workers|
    && (forall i | 0 <= i < |s.workers| :: s.workers[i] == Looping && s.jobsPerThread[i] == 0)
    && (forall p | 0 <= p < |s.producers| :: s.producers[p] == Idle)
    && s.joiner == Away && s.accepted == multiset{} && s.ran == [] && s.noOps == 0
  }

  /** The top of the priority queue: no queued job has a higher priority. */
  ghost predicate IsTop(jobs: multiset<Job>, top: Job) {
    top in jobs && forall j | j in jobs :: j.priority <= top.priority
  }

  ghost predicate WorkEnabled(s: Pool, i: nat, top: Job) {
    && i < |s.workers| && i < |s.jobsPerThread|
    && match s.workers[i]
       case Waiting => s.mutex == Nobody && (s.jobs != multiset{} || s.stop)
       case Awake => s.stop || IsTop(s.jobs, top)
       case Exited => false
       case _ => true
  }

  ghost predicate Enabled(s: Pool, a: Action) {
    match a
    case Work(i, top) => WorkEnabled(s, i, top)
    case Call(p, _) => p < |s.producers| && s.producers[p] == Idle
    case Produce(p) => p < |s.producers| && s.producers[p] != Idle && (s.producers[p].Admitted? ==> s.mutex == Nobody)
    case JoinAll(_) => s.joiner == Away
    case Join =>
      match s.joiner
      case Asked => true
      case Blocked => s.jobsLeft == 0
      case Stopping => true
      case Joining => forall i | 0 <= i < |s.workers| :: s.workers[i] == Exited
      case _ => false
  }

  ghost function Set(s: Pool, i: nat, w: Worker): Pool
    requires i < |s.workers|
  {
    s.(workers := s.workers[i := w])
  }

  /** process and next_job, one atomic access at a time; leaving next_job releases the mutex. */
  ghost function Worked(s: Pool, i: nat, top: Job): Pool
    requires WorkEnabled(s, i, top)
  {
    match s.workers[i]
    case Looping => Set(s, i, if s.stop then Exited else Waiting)
    case Waiting => Set(s, i, Awake).(mutex := ByWorker(i))
    case Awake =>
      if s.stop then Set(s, i, Granting)
      else Set(s, i, Ready(Queued(top))).(jobs := s.jobs - multiset{top}, mutex := Nobody)
    case Granting => Set(s, i, TakingBack).(jobsLeft := s.jobsLeft + 1)
    case TakingBack => Set(s, i, Ready(NoOp)).(jobsDone := s.jobsDone - 1, mutex := Nobody, noOps := s.noOps + 1)
    case Ready(task) => Set(s, i, Running(task)).(busyThreads := s.busyThreads + 1)
    case Running(task) => Set(s, i, Ran(task)).(ran := if task.Queued? then s.ran + [task.job] else s.ran)
    case Ran(task) => Set(s, i, Counting(task)).(busyThreads := s.busyThreads - 1)
    case Counting(task) => Set(s, i, Leaving(task)).(jobsPerThread := s.jobsPerThread[i := s.jobsPerThread[i] + 1])
    case Leaving(task) => Set(s, i, Finishing(task)).(jobsLeft := s.jobsLeft - 1)
    case Finishing(task) => Set(s, i, Looping).(jobsDone := s.jobsDone + 1)
  }

  /** addJob */
  ghost function Produced(s: Pool, p: nat): Pool
    requires Enabled(s, Produce(p))
  {
    match s.producers[p]
    case Asking(job) =>
      s.(producers := s.producers[p := if s.jobsLeft >= QueueLimit(s.maxQueueSize) then Idle else Admitted(job)])
    case Admitted(job) =>
      s.(producers := s.producers[p := Pushed], mutex := ByProducer(p),
         jobs := s.jobs + multiset{job}, accepted := s.accepted + multiset{job})
    case Pushed =>
      s.(producers := s.producers[p := Idle], mutex := Nobody, jobsLeft := s.jobsLeft + 1)
  }

  /** joinAll and waitAll */
  ghost function JoinStep(s: Pool): Pool
    requires Enabled(s, Join)
  {
    match s.joiner
    case Asked => s.(joiner := if s.jobsLeft > 0 then Blocked else Stopping)
    case Blocked => s.(joiner := Stopping)
    case Stopping => s.(joiner := Joining, stop := true)
    case Joining => s.(joiner := Joined)
  }

  ghost function Next(s: Pool, a: Action): Pool
    requires Enabled(s, a)
  {
    match a
    case Work(i, top) => Worked(s, i, top)
    case Call(p, job) => s.(producers := s.producers[p := Asking(job)])
    case Produce(p) => Produced(s, p)
    case JoinAll(waitForAll) => s.(joiner := if waitForAll then Asked else Stopping)
    case Join => JoinStep(s)
  }

  /** Every state but the first follows from the one before by one enabled action. */
  ghost predicate Path(states: seq<Pool>, actions: seq<Action>) {
    && |states| == |actions| + 1
    && forall n | 0 <= n < |actions| :: Enabled(states[n], actions[n]) && states[n + 1] == Next(states[n], actions[n])
  }

  ghost predicate Run(states: seq<Pool>, actions: seq<Action>) {
    Path(states, actions) && Initial(states[0])
  }

  // ----- sums over the program counters

  ghost function Total<T>(pcs: seq<T>, weight: T -> int): int {
    if pcs == [] then 0 else weight(pcs[0]) + Total(pcs[1..], weight)
  }

  lemma {:induction false} TotalUpdate<T>(pcs: seq<T>, i: nat, pc: T, weight: T -> int)
    requires i < |pcs|
    ensures Total(pcs[i := pc], weight) == Total(pcs, weight) - weight(pcs[i]) + weight(pc)
  {
    if i == 0 {
      assert pcs[0 := pc][1..] == pcs[1..];
    } else {
      TotalUpdate(pcs[1..], i - 1, pc, weight);
      assert pcs[i := pc][1..] == pcs[1..][i - 1 := pc];
    }
  }

  /** A sum of zeros and ones is between zero and the number of terms. */
  lemma {:induction false} TotalBounds<T>(pcs: seq<T>, weight: T -> int)
    requires forall i | 0 <= i < |pcs| :: 0 <= weight(pcs[i]) <= 1
    ensures 0 <= Total(pcs, weight) <= |pcs|
  {
    if pcs != [] {
      TotalBounds(pcs[1..], weight);
    }
  }

  /** A sum of zeros and ones with at most one 1 is at most one. */
  lemma {:induction false} TotalSingle<T>(pcs: seq<T>, weight: T -> int, only: int)
    requires forall i | 0 <= i < |pcs| :: weight(pcs[i]) == if i == only then 1 else 0
    ensures Total(pcs, weight) == if 0 <= only < |pcs| then 1 else 0
  {
    if pcs != [] {
      TotalSingle(pcs[1..], weight, only - 1);
    }
  }

  lemma {:induction false} TotalZero<T>(pcs: seq<T>, weight: T -> int)
    requires forall i | 0 <= i < |pcs| :: weight(pcs[i]) == 0
    ensures Total(pcs, weight) == 0
  {
    if pcs != [] {
      TotalZero(pcs[1..], weight);
    }
  }

  // ----- what the program counters weigh

  predicate Holds(w: Worker) {
    (w.Ready? || w.Running?) && w.task.Queued?
  }

  /** Jobs popped but not run yet. */
  function Held(w: Worker): multiset<Job> {
    if Holds(w) then multiset{w.task.job} else multiset{}
  }

  /** Workers that jobsLeft still counts. */
  function Owing(w: Worker): int {
    if w.TakingBack? || w.Ready? || w.Running? || w.Ran? || w.Counting? || w.Leaving? then 1 else 0
  }

  /** Workers between their updates of jobsLeft and jobsDone. */
  function Between(w: Worker): int {
    if w.Finishing? then 1 else if w.TakingBack? then -1 else 0
  }

  function Busy(w: Worker): int {
    if w.Running? || w.Ran? then 1 else 0
  }

  function Counted(w: Worker): int {
    if w.Leaving? || w.Finishing? then 1 else 0
  }

  /** No-ops that jobsLeft still counts. */
  function OwingNoOp(w: Worker): int {
    if w.TakingBack? || (Owing(w) == 1 && w.task.NoOp?) then 1 else 0
  }

  /** Workers that cannot ask for another no-op once the pool stops. */
  function Settled(w: Worker): int {
    if w.Exited? || w.Looping? || (!w.Waiting? && !w.Awake? && !w.Granting? && !w.TakingBack? && w.task.NoOp?) then 1 else 0
  }

  function Uncounted(p: Producer): int {
    if p.Pushed? then 1 else 0
  }

  /** Calls that passed the check of the queue size and have not raised jobsLeft yet. */
  function Pending(p: Producer): int {
    if p.Admitted? || p.Pushed? then 1 else 0
  }

  ghost function HeldJobs(ws: seq<Worker>): multiset<Job> {
    if ws == [] then multiset{} else Held(ws[0]) + HeldJobs(ws[1..])
  }

  lemma SameAddend(x: multiset<Job>, y: multiset<Job>, z: multiset<Job>, u: multiset<Job>, v: multiset<Job>)
    requires y + z == u + v
    ensures x + y + z == x + u + v
  {
    assert x + y + z == x + (y + z) && x + u + v == x + (u + v);
  }

  lemma SwapAddends(x: multiset<Job>, y: multiset<Job>, z: multiset<Job>)
    ensures x + y + z == z + y + x
  {
  }

  lemma {:induction false} HeldUpdate(ws: seq<Worker>, i: nat, w: Worker)
    requires i < |ws|
    ensures HeldJobs(ws[i := w]) + Held(ws[i]) == HeldJobs(ws) + Held(w)
  {
    hide Held;
    if i == 0 {
      assert ws[0 := w][1..] == ws[1..];
      SwapAddends(Held(w), HeldJobs(ws[1..]), Held(ws[0]));
    } else {
      HeldUpdate(ws[1..], i - 1, w);
      assert ws[i := w][1..] == ws[1..][i - 1 := w];
      SameAddend(Held(ws[0]), HeldJobs(ws[1..][i - 1 := w]), Held(ws[i]), HeldJobs(ws[1..]), Held(w));
    }
  }

  // ----- invariants of every run

  /** The mutex is held exactly by the program counter that stands inside a critical section. */
  ghost predicate MutexHeld(s: Pool) {
    && (forall i | 0 <= i < |s.workers| ::
          s.workers[i].Awake? || s.workers[i].Granting? || s.workers[i].TakingBack? <==> s.mutex == ByWorker(i))
    && (forall p | 0 <= p < |s.producers| :: s.producers[p].Pushed? <==> s.mutex == ByProducer(p))
    && (s.mutex.ByProducer? ==> s.mutex.p < |s.producers| && |s.jobs| > 0)
    && (s.mutex.ByWorker? ==> s.mutex.i < |s.workers|)
  }

  /** No-ops exist only once the pool stops; a worker that is awake has a job to take or a stop to heed. */
  ghost predicate StopHeeded(s: Pool) {
    && |s.jobsPerThread| == |s.workers|
    && forall i | 0 <= i < |s.workers| && !s.stop ::
         var w := s.workers[i];
         && !w.Exited? && !w.Granting? && !w.TakingBack?
         && (w.Awake? ==> s.jobs != multiset{})
         && OwingNoOp(w) == 0 && (w.Finishing? ==> w.task.Queued?)
  }

  /** Nothing is lost and nothing is run twice. */
  ghost predicate Conserved(s: Pool) {
    s.accepted == s.jobs + HeldJobs(s.workers) + multiset(s.ran)
  }

  ghost predicate LeftCounted(s: Pool) {
    s.jobsLeft == |s.jobs| + Total(s.workers, Owing) - Total(s.producers, Uncounted)
  }

  ghost predicate DoneCounted(s: Pool) {
    s.jobsLeft + s.jobsDone + Total(s.workers, Between) + Total(s.producers, Uncounted) == |s.accepted|
  }

  ghost predicate BusyCounted(s: Pool) {
    s.busyThreads == Total(s.workers, Busy)
  }

  ghost function Sum(counts: seq<int>): int {
    Total(counts, (n: int) => n)
  }

  /** The per-thread counts include the no-ops. */
  ghost predicate ThreadsCounted(s: Pool) {
    && |s.jobsPerThread| == |s.workers|
    && Sum(s.jobsPerThread) == s.jobsDone + s.noOps + Total(s.workers, Counted)
  }

  /** Every worker gets at most one no-op. */
  ghost predicate NoOpsBounded(s: Pool) {
    && (s.stop || s.noOps == 0)
    && 0 <= s.noOps <= Total(s.workers, Settled)
  }

  /** The queue limit can be overshot by one job for every other caller of addJob; below 1 nothing is accepted. */
  ghost predicate Bounded(s: Pool) {
    s.jobsLeft + Total(s.producers, Pending) - Total(s.workers, OwingNoOp) <= Room(s)
  }

  /** As many jobs as jobsLeft can count before the pool stops. */
  function Room(s: Pool): nat {
    if QueueLimit(s.maxQueueSize) <= 0 || s.producers == [] then 0 else QueueLimit(s.maxQueueSize) + |s.producers| - 1
  }

  ghost predicate Inv(s: Pool) {
    MutexHeld(s) && StopHeeded(s) && Conserved(s) && LeftCounted(s) && DoneCounted(s) && BusyCounted(s) && ThreadsCounted(s) && NoOpsBounded(s) && Bounded(s)
  }

  lemma InitialInv(s: Pool)
    requires Initial(s)
    ensures Inv(s)
  {
    TotalZero(s.workers, Owing);
    TotalZero(s.workers, Between);
    TotalZero(s.workers, Busy);
    TotalZero(s.workers, Counted);
    TotalZero(s.workers, OwingNoOp);
    TotalBounds(s.workers, Settled);
    TotalZero(s.producers, Uncounted);
    TotalZero(s.producers, Pending);
    TotalZero(s.jobsPerThread, (n: int) => n);
    HeldNone(s.workers);
  }

  lemma {:induction false} HeldNone(ws: seq<Worker>)
    requires forall i | 0 <= i < |ws| :: Held(ws[i]) == multiset{}
    ensures HeldJobs(ws) == multiset{}
  {
    if ws != [] {
      HeldNone(ws[1..]);
    }
  }

  // ----- one lemma for each invariant

  predicate Critical(w: Worker) {
    w.Awake? || w.Granting? || w.TakingBack?
  }

  lemma NextMutexHeld(s: Pool, a: Action)
    requires MutexHeld(s) && Enabled(s, a)
    ensures MutexHeld(Next(s, a))
  {
    match a
    case Work(i, top) => WorkMutexHeld(s, i, top);
    case Produce(p) => ProduceMutexHeld(s, p);
    case _ =>
  }

  lemma WorkMutexHeld(s: Pool, i: nat, top: Job)
    requires MutexHeld(s) && WorkEnabled(s, i, top)
    ensures MutexHeld(Worked(s, i, top))
  {
    var t := Worked(s, i, top);
    assert t.producers == s.producers && t.workers == s.workers[i := t.workers[i]];
    assert s.mutex == t.mutex || s.mutex == Nobody || t.mutex == Nobody;
    assert !s.mutex.ByProducer? ==> !t.mutex.ByProducer?;
    assert s.mutex.ByProducer? ==> t.mutex == s.mutex && t.jobs == s.jobs;
    assert Critical(t.workers[i]) <==> t.mutex == ByWorker(i);
  }

  lemma ProduceMutexHeld(s: Pool, p: nat)
    requires MutexHeld(s) && Enabled(s, Produce(p))
    ensures MutexHeld(Produced(s, p))
  {
  }

  lemma NextStopHeeded(s: Pool, a: Action)
    requires MutexHeld(s) && StopHeeded(s) && Enabled(s, a)
    ensures StopHeeded(Next(s, a))
  {
    match a
    case Work(i, top) => WorkStopHeeded(s, i, top);
    case _ =>
  }

  lemma WorkStopHeeded(s: Pool, i: nat, top: Job)
    requires MutexHeld(s) && StopHeeded(s) && WorkEnabled(s, i, top)
    ensures StopHeeded(Worked(s, i, top))
  {
    var t := Worked(s, i, top);
    assert t.stop == s.stop && t.workers == s.workers[i := t.workers[i]];
    assert t.jobs == s.jobs || s.workers[i].Awake?;
  }

  lemma WorkTotal(s: Pool, i: nat, top: Job, weight: Worker -> int)
    requires WorkEnabled(s, i, top)
    ensures var t := Worked(s, i, top);
      && |t.workers| == |s.workers| && t.producers == s.producers
      && Total(t.workers, weight) == Total(s.workers, weight) - weight(s.workers[i]) + weight(t.workers[i])
  {
    hide Total;
    var t := Worked(s, i, top);
    assert t.workers == s.workers[i := t.workers[i]];
    TotalUpdate(s.workers, i, t.workers[i], weight);
  }

  lemma ProduceTotal(s: Pool, p: nat, weight: Producer -> int)
    requires Enabled(s, Produce(p))
    ensures var t := Produced(s, p);
      && |t.producers| == |s.producers| && t.workers == s.workers
      && Total(t.producers, weight) == Total(s.producers, weight) - weight(s.producers[p]) + weight(t.producers[p])
  {
    hide Total;
    var t := Produced(s, p);
    assert t.producers == s.producers[p := t.producers[p]];
    TotalUpdate(s.producers, p, t.producers[p], weight);
  }

  lemma CallTotal(s: Pool, p: nat, job: Job, weight: Producer -> int)
    requires Enabled(s, Call(p, job)) && weight(Asking(job)) == weight(Idle)
    ensures Total(Next(s, Call(p, job)).producers, weight) == Total(s.producers, weight)
  {
    TotalUpdate(s.producers, p, Asking(job), weight);
  }

  lemma NextConserved(s: Pool, a: Action)
    requires Conserved(s) && StopHeeded(s) && Enabled(s, a)
    ensures Conserved(Next(s, a))
  {
    hide HeldJobs;
    match a
    case Work(i, top) => WorkConserved(s, i, top);
    case _ =>
  }

  lemma WorkConserved(s: Pool, i: nat, top: Job)
    requires Conserved(s) && WorkEnabled(s, i, top)
    ensures Conserved(Worked(s, i, top))
  {
    var w := s.workers[i];
    if w.Awake? && !s.stop {
      PopConserved(s, i, top);
    } else if w.Running? && w.task.Queued? {
      RunConserved(s, i, top);
    } else {
      HeldSame(s, i, top);
    }
  }

  lemma OneWorker(s: Pool, i: nat, top: Job)
    requires WorkEnabled(s, i, top)
    ensures Worked(s, i, top).workers == s.workers[i := Worked(s, i, top).workers[i]]
    ensures Worked(s, i, top).accepted == s.accepted
  {
  }

  lemma SameJobs(s: Pool, i: nat, top: Job)
    requires WorkEnabled(s, i, top) && !(s.workers[i].Awake? && !s.stop)
    requires !(s.workers[i].Running? && s.workers[i].task.Queued?)
    ensures var t := Worked(s, i, top);
      && t.jobs == s.jobs && t.ran == s.ran && i < |t.workers|
      && Holds(t.workers[i]) == Holds(s.workers[i])
      && (Holds(s.workers[i]) ==> t.workers[i].task == s.workers[i].task)
  {
  }

  lemma HeldSame(s: Pool, i: nat, top: Job)
    requires WorkEnabled(s, i, top) && !(s.workers[i].Awake? && !s.stop)
    requires !(s.workers[i].Running? && s.workers[i].task.Queued?)
    ensures var t := Worked(s, i, top);
      t.jobs == s.jobs && HeldJobs(t.workers) == HeldJobs(s.workers) && t.ran == s.ran && t.accepted == s.accepted
  {
    hide HeldJobs, Worked;
    var t := Worked(s, i, top);
    OneWorker(s, i, top);
    SameJobs(s, i, top);
    assert Held(t.workers[i]) == Held(s.workers[i]);
    HeldUpdate(s.workers, i, t.workers[i]);
    Cancel(HeldJobs(t.workers), HeldJobs(s.workers), Held(s.workers[i]));
  }

  lemma Cancel(x: multiset<Job>, y: multiset<Job>, z: multiset<Job>)
    requires x + z == y + z
    ensures x == y
  {
    assert x == x + z - z && y == y + z - z;
  }

  lemma PopConserved(s: Pool, i: nat, top: Job)
    requires Conserved(s) && WorkEnabled(s, i, top) && s.workers[i].Awake? && !s.stop
    ensures Conserved(Worked(s, i, top))
  {
    hide HeldJobs;
    var t := Worked(s, i, top);
    HeldUpdate(s.workers, i, Ready(Queued(top)));
    assert s.jobs == t.jobs + multiset{top};
    Moved(t.jobs, HeldJobs(s.workers), HeldJobs(t.workers), multiset(s.ran), top);
  }

  lemma RunConserved(s: Pool, i: nat, top: Job)
    requires Conserved(s) && WorkEnabled(s, i, top) && s.workers[i].Running? && s.workers[i].task.Queued?
    ensures Conserved(Worked(s, i, top))
  {
    hide HeldJobs;
    var job := s.workers[i].task.job;
    var t := Worked(s, i, top);
    HeldUpdate(s.workers, i, Ran(Queued(job)));
    Moved2(s.jobs, HeldJobs(s.workers), HeldJobs(t.workers), multiset(s.ran), job);
    assert multiset(s.ran + [job]) == multiset(s.ran) + multiset{job};
  }

  lemma Moved(rest: multiset<Job>, held: multiset<Job>, now: multiset<Job>, ran: multiset<Job>, job: Job)
    requires now + multiset{} == held + multiset{job}
    ensures rest + multiset{job} + held + ran == rest + now + ran
  {
    assert now == now + multiset{};
    SwapAddends(rest, multiset{job}, held);
    SwapAddends(rest, now, multiset{});
    assert rest + multiset{job} + held == rest + (held + multiset{job});
  }

  lemma Moved2(jobs: multiset<Job>, held: multiset<Job>, now: multiset<Job>, ran: multiset<Job>, job: Job)
    requires now + multiset{job} == held + multiset{}
    ensures jobs + held + ran == jobs + now + (ran + multiset{job})
  {
    assert held == held + multiset{};
    assert jobs + (now + multiset{job}) + ran == jobs + now + (ran + multiset{job});
  }

  lemma NextLeftCounted(s: Pool, a: Action)
    requires LeftCounted(s) && Enabled(s, a)
    ensures LeftCounted(Next(s, a))
  {
    hide Total;
    match a
    case Work(i, top) => WorkLeftCounted(s, i, top);
    case Call(p, job) => CallTotal(s, p, job, Uncounted);
    case Produce(p) => ProduceTotal(s, p, Uncounted);
    case _ =>
  }

  lemma WorkLeftCounted(s: Pool, i: nat, top: Job)
    requires LeftCounted(s) && WorkEnabled(s, i, top)
    ensures LeftCounted(Worked(s, i, top))
  {
    hide Total, Worked, Owing;
    WorkTotal(s, i, top, Owing);
    LeftChange(s, i, top);
  }

  lemma LeftChange(s: Pool, i: nat, top: Job)
    requires WorkEnabled(s, i, top)
    ensures var t := Worked(s, i, top);
      && |t.workers| == |s.workers|
      && t.jobsLeft - s.jobsLeft == |t.jobs| - |s.jobs| + Owing(t.workers[i]) - Owing(s.workers[i])
  {
  }

  lemma NextDoneCounted(s: Pool, a: Action)
    requires DoneCounted(s) && Enabled(s, a)
    ensures DoneCounted(Next(s, a))
  {
    hide Total;
    match a
    case Work(i, top) => WorkDoneCounted(s, i, top);
    case Call(p, job) => CallTotal(s, p, job, Uncounted);
    case Produce(p) => ProduceTotal(s, p, Uncounted);
    case _ =>
  }

  lemma WorkDoneCounted(s: Pool, i: nat, top: Job)
    requires DoneCounted(s) && WorkEnabled(s, i, top)
    ensures DoneCounted(Worked(s, i, top))
  {
    hide Total, Worked, Between;
    WorkTotal(s, i, top, Between);
    DoneChange(s, i, top);
  }

  lemma DoneChange(s: Pool, i: nat, top: Job)
    requires WorkEnabled(s, i, top)
    ensures var t := Worked(s, i, top);
      && |t.workers| == |s.workers| && t.accepted == s.accepted
      && t.jobsLeft + t.jobsDone + Between(t.workers[i]) == s.jobsLeft + s.jobsDone + Between(s.workers[i])
  {
  }

  lemma NextBusyCounted(s: Pool, a: Action)
    requires BusyCounted(s) && Enabled(s, a)
    ensures BusyCounted(Next(s, a))
  {
    hide Total;
    match a
    case Work(i, top) => WorkBusyCounted(s, i, top);
    case _ =>
  }

  lemma WorkBusyCounted(s: Pool, i: nat, top: Job)
    requires BusyCounted(s) && WorkEnabled(s, i, top)
    ensures BusyCounted(Worked(s, i, top))
  {
    hide Total, Worked, Busy;
    WorkTotal(s, i, top, Busy);
    BusyChange(s, i, top);
  }

  lemma BusyChange(s: Pool, i: nat, top: Job)
    requires WorkEnabled(s, i, top)
    ensures var t := Worked(s, i, top);
      |t.workers| == |s.workers| && t.busyThreads - s.busyThreads == Busy(t.workers[i]) - Busy(s.workers[i])
  {
  }

  lemma NextThreadsCounted(s: Pool, a: Action)
    requires ThreadsCounted(s) && Enabled(s, a)
    ensures ThreadsCounted(Next(s, a))
  {
    hide Total;
    match a
    case Work(i, top) => WorkThreadsCounted(s, i, top);
    case _ =>
  }

  lemma WorkThreadsCounted(s: Pool, i: nat, top: Job)
    requires ThreadsCounted(s) && WorkEnabled(s, i, top)
    ensures ThreadsCounted(Worked(s, i, top))
  {
    hide Total, Worked, Counted;
    WorkTotal(s, i, top, Counted);
    TotalUpdate(s.jobsPerThread, i, s.jobsPerThread[i] + 1, (n: int) => n);
    CountedChange(s, i, top);
  }

  lemma CountedChange(s: Pool, i: nat, top: Job)
    requires WorkEnabled(s, i, top)
    ensures var t := Worked(s, i, top);
      && |t.workers| == |s.workers|
      && t.jobsPerThread == (if s.workers[i].Counting? then s.jobsPerThread[i := s.jobsPerThread[i] + 1] else s.jobsPerThread)
      && t.jobsDone + t.noOps + Counted(t.workers[i]) - s.jobsDone - s.noOps - Counted(s.workers[i])
         == if s.workers[i].Counting? then 1 else 0
  {
  }

  lemma NextNoOpsBounded(s: Pool, a: Action)
    requires NoOpsBounded(s) && StopHeeded(s) && Enabled(s, a)
    ensures NoOpsBounded(Next(s, a))
  {
    hide Total;
    match a
    case Work(i, top) => WorkNoOpsBounded(s, i, top);
    case _ =>
  }

  lemma WorkNoOpsBounded(s: Pool, i: nat, top: Job)
    requires NoOpsBounded(s) && StopHeeded(s) && WorkEnabled(s, i, top)
    ensures NoOpsBounded(Worked(s, i, top))
  {
    hide Total, Worked, Settled;
    WorkTotal(s, i, top, Settled);
    SettledChange(s, i, top);
    SettledTotal(Worked(s, i, top).workers);
  }

  lemma SettledTotal(ws: seq<Worker>)
    ensures 0 <= Total(ws, Settled)
  {
    TotalBounds(ws, Settled);
  }

  lemma SettledChange(s: Pool, i: nat, top: Job)
    requires WorkEnabled(s, i, top) && StopHeeded(s)
    ensures var t := Worked(s, i, top);
      && |t.workers| == |s.workers| && t.stop == s.stop
      && if s.stop then 0 <= t.noOps - s.noOps <= Settled(t.workers[i]) - Settled(s.workers[i]) else t.noOps == s.noOps
  {
  }

  lemma LeftNotNegative(s: Pool)
    requires MutexHeld(s) && LeftCounted(s)
    ensures |s.jobs| <= s.jobsLeft + 1 && 0 <= s.jobsLeft
  {
    hide Total;
    TotalBounds(s.workers, Owing);
    TotalSingle(s.producers, Uncounted, if s.mutex.ByProducer? then s.mutex.p else -1);
  }

  lemma NextBounded(s: Pool, a: Action)
    requires Bounded(s) && 0 <= s.jobsLeft && Enabled(s, a)
    ensures Bounded(Next(s, a))
  {
    hide Total, QueueLimit;
    match a
    case Work(i, top) => WorkBounded(s, i, top);
    case Call(p, job) => CallTotal(s, p, job, Pending);
    case Produce(p) => ProduceBounded(s, p);
    case _ =>
  }

  lemma WorkBounded(s: Pool, i: nat, top: Job)
    requires Bounded(s) && WorkEnabled(s, i, top)
    ensures Bounded(Worked(s, i, top))
  {
    hide Total, Worked, OwingNoOp, QueueLimit;
    WorkTotal(s, i, top, OwingNoOp);
    OwingNoOpChange(s, i, top);
  }

  lemma OwingNoOpChange(s: Pool, i: nat, top: Job)
    requires WorkEnabled(s, i, top)
    ensures var t := Worked(s, i, top);
      && |t.workers| == |s.workers| && t.producers == s.producers && t.maxQueueSize == s.maxQueueSize
      && t.jobsLeft - s.jobsLeft <= OwingNoOp(t.workers[i]) - OwingNoOp(s.workers[i])
  {
  }

  lemma ProduceBounded(s: Pool, p: nat)
    requires Bounded(s) && 0 <= s.jobsLeft && Enabled(s, Produce(p))
    ensures Bounded(Produced(s, p))
  {
    hide Total, QueueLimit;
    ProduceTotal(s, p, Pending);
    TotalBounds(Produced(s, p).producers, Pending);
    TotalBounds(s.workers, OwingNoOp);
  }

  lemma NextInv(s: Pool, a: Action)
    requires Inv(s) && Enabled(s, a)
    ensures Inv(Next(s, a))
  {
    NextMutexHeld(s, a);
    NextStopHeeded(s, a);
    NextConserved(s, a);
    NextLeftCounted(s, a);
    NextDoneCounted(s, a);
    NextBusyCounted(s, a);
    NextThreadsCounted(s, a);
    NextNoOpsBounded(s, a);
    LeftNotNegative(s);
    NextBounded(s, a);
  }

  lemma {:induction false} PathInv(states: seq<Pool>, actions: seq<Action>, n: nat)
    requires Path(states, actions) && Inv(states[0]) && n < |states|
    ensures Inv(states[n])
  {
    hide Inv, Enabled, Next;
    if n > 0 {
      PathInv(states, actions, n - 1);
      assert Enabled(states[n - 1], actions[n - 1]) && states[n - 1 + 1] == Next(states[n - 1], actions[n - 1]);
      NextInv(states[n - 1], actions[n - 1]);
    }
  }

  lemma RunInv(states: seq<Pool>, actions: seq<Action>, n: nat)
    requires Run(states, actions) && n < |states|
    ensures Inv(states[n])
  {
    hide Inv, Path;
    InitialInv(states[0]);
    PathInv(states, actions, n);
  }

  // ----- what follows for every run

  /** jobsLeft is never negative, and busyThreads counts some of the threads. */
  lemma CountersInRange(states: seq<Pool>, actions: seq<Action>, n: nat)
    requires Run(states, actions) && n < |states|
    ensures var s := states[n];
      && |s.jobs| <= s.jobsLeft + 1 && 0 <= s.jobsLeft
      && 0 <= s.busyThreads <= |s.workers|
      && 0 <= s.noOps <= |s.workers|
  {
    hide Total;
    RunInv(states, actions, n);
    var s := states[n];
    LeftNotNegative(s);
    TotalBounds(s.workers, Busy);
    TotalBounds(s.workers, Settled);
  }

  /** The queue limit, for callers that check it before they take the lock. */
  lemma QueueBound(states: seq<Pool>, actions: seq<Action>, n: nat)
    requires Run(states, actions) && n < |states|
    ensures var s := states[n];
      s.jobsLeft <= Room(s) + (if s.stop then |s.workers| else 0)
  {
    hide Total, OwingNoOp;
    RunInv(states, actions, n);
    var s := states[n];
    TotalBounds(s.producers, Pending);
    NoOpsOwing(s);
  }

  lemma NoOpsOwing(s: Pool)
    requires StopHeeded(s)
    ensures 0 <= Total(s.workers, OwingNoOp) <= if s.stop then |s.workers| else 0
  {
    hide Total;
    TotalBounds(s.workers, OwingNoOp);
    if !s.stop {
      TotalZero(s.workers, OwingNoOp);
    }
  }

  /** A job is run as often as it was accepted, at most. */
  lemma RunAtMostOnce(states: seq<Pool>, actions: seq<Action>, n: nat, job: Job)
    requires Run(states, actions) && n < |states|
    ensures multiset(states[n].ran)[job] <= states[n].accepted[job]
    ensures states[n].jobs == multiset{} && HeldJobs(states[n].workers) == multiset{} ==> multiset(states[n].ran) == states[n].accepted
  {
    RunInv(states, actions, n);
  }

  /** After joinAll every worker is gone: jobs have run or are still queued, and the counters say how many. */
  lemma AfterJoin(states: seq<Pool>, actions: seq<Action>, n: nat)
    requires Run(states, actions) && n < |states|
    requires states[n].joiner == Joined
    ensures var s := states[n];
      && s.accepted == s.jobs + multiset(s.ran)
      && s.busyThreads == 0
      && s.jobsDone == |s.ran|
      && Sum(s.jobsPerThread) == |s.ran| + s.noOps
  {
    hide Total, HeldJobs;
    RunInv(states, actions, n);
    JoinedMeansExited(states, actions, n);
    var s := states[n];
    TotalZero(s.workers, Owing);
    TotalZero(s.workers, Between);
    TotalZero(s.workers, Busy);
    TotalZero(s.workers, Counted);
    HeldNone(s.workers);
    assert |multiset(s.ran)| == |s.ran|;
    assert s.jobs + multiset{} + multiset(s.ran) == s.jobs + multiset(s.ran);
  }

  lemma {:induction false} JoinedMeansExited(states: seq<Pool>, actions: seq<Action>, n: nat)
    requires Run(states, actions) && n < |states| && states[n].joiner == Joined
    ensures AllExited(states[n])
  {
    hide Enabled, Next, AllExited;
    if n > 0 {
      assert Enabled(states[n - 1], actions[n - 1]) && states[n - 1 + 1] == Next(states[n - 1], actions[n - 1]);
      if states[n - 1].joiner == Joined {
        JoinedMeansExited(states, actions, n - 1);
      }
      ExitedStep(states[n - 1], actions[n - 1]);
    }
  }

  ghost predicate AllExited(s: Pool) {
    forall i | 0 <= i < |s.workers| :: s.workers[i] == Exited
  }

  lemma ExitedStep(s: Pool, a: Action)
    requires Enabled(s, a) && Next(s, a).joiner == Joined && (s.joiner == Joined ==> AllExited(s))
    ensures AllExited(Next(s, a))
  {
  }
}
