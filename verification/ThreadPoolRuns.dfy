/** Properties of whole runs of the thread pool: waiting for all jobs, priorities, and runs that go wrong. */
module ThreadPoolRuns {
  import opened ThreadPool

  ghost predicate ProducersIdle(s: Pool) {
    forall p | 0 <= p < |s.producers| :: s.producers[p] == Idle
  }

  lemma CallIsBusy(s: Pool, p: nat, job: Job)
    requires Enabled(s, Call(p, job))
    ensures !ProducersIdle(Next(s, Call(p, job)))
  {
    assert Next(s, Call(p, job)).producers[p] == Asking(job);
  }

  lemma StepAt(states: seq<Pool>, actions: seq<Action>, k: nat)
    requires Run(states, actions) && k < |actions|
    ensures Enabled(states[k], actions[k]) && states[k + 1] == Next(states[k], actions[k])
  {
  }

  /** A path goes on by one enabled action. */
  lemma Extended(states: seq<Pool>, actions: seq<Action>, a: Action) returns (more: seq<Pool>, done: seq<Action>)
    requires Path(states, actions) && Enabled(states[|actions|], a)
    ensures Path(more, done) && done == actions + [a] && more == states + [Next(states[|actions|], a)]
  {
    hide Enabled, Next;
    more, done := states + [Next(states[|actions|], a)], actions + [a];
    forall n | 0 <= n < |done|
      ensures Enabled(more[n], done[n]) && more[n + 1] == Next(more[n], done[n])
    {
      if n < |actions| {
        assert Enabled(states[n], actions[n]) && states[n + 1] == Next(states[n], actions[n]);
      }
    }
  }

  // ----- waitAll

  /** No job is queued or held by a worker. */
  ghost predicate Drained(s: Pool) {
    s.jobs == multiset{} && forall i | 0 <= i < |s.workers| :: !Holds(s.workers[i])
  }

  /** The next step of the caller of joinAll(true) leaves waitAll. */
  ghost predicate LeavesWait(s: Pool) {
    (s.joiner == Asked && s.jobsLeft <= 0) || (s.joiner == Blocked && s.jobsLeft == 0)
  }

  /** No call of addJob under way can still push a job: there is none, or the limit rejects it. */
  ghost predicate NoLateCall(s: Pool) {
    forall p | 0 <= p < |s.producers| ::
      s.producers[p] == Idle || (s.producers[p].Asking? && QueueLimit(s.maxQueueSize) <= 0)
  }

  ghost predicate NoNewCall(actions: seq<Action>) {
    forall k | 0 <= k < |actions| :: !actions[k].Call?
  }

  /** waitAll is left in `s`, and no new call of addJob starts afterwards. */
  ghost predicate GoesOn(s: Pool, states: seq<Pool>, actions: seq<Action>) {
    Path(states, actions) && states[0] == s && actions != [] && actions[0] == Join && NoNewCall(actions)
  }

  /** The continuations in which joinAll returns. */
  ghost predicate Returns(s: Pool, states: seq<Pool>, actions: seq<Action>) {
    GoesOn(s, states, actions) && states[|actions|].joiner == Joined
  }

  /** Every accepted job has run, as often as it was accepted. */
  ghost predicate AllRun(s: Pool) {
    s.accepted == multiset(s.ran)
  }

  lemma {:induction false} EachZero<T>(pcs: seq<T>, weight: T -> int, i: nat)
    requires i < |pcs| && Total(pcs, weight) <= 0
    requires forall k | 0 <= k < |pcs| :: 0 <= weight(pcs[k]) <= 1
    ensures weight(pcs[i]) == 0
  {
    TotalBounds(pcs[1..], weight);
    if i > 0 {
      EachZero(pcs[1..], weight, i - 1);
    }
  }

  /** jobsLeft == 0 means that no worker holds a job, and that none is queued but the one just being pushed. */
  lemma NothingLeft(s: Pool)
    requires Inv(s) && s.jobsLeft <= 0
    ensures forall i | 0 <= i < |s.workers| :: Owing(s.workers[i]) == 0
    ensures !s.mutex.ByProducer? ==> s.jobs == multiset{}
  {
    hide Total;
    TotalSingle(s.producers, Uncounted, if s.mutex.ByProducer? then s.mutex.p else -1);
    TotalBounds(s.workers, Owing);
    forall i | 0 <= i < |s.workers|
      ensures Owing(s.workers[i]) == 0
    {
      EachZero(s.workers, Owing, i);
    }
  }

  lemma DrainedAtZero(s: Pool)
    requires Inv(s) && s.jobsLeft <= 0 && NoLateCall(s)
    ensures Drained(s)
  {
    hide Total;
    NothingLeft(s);
    assert forall i | 0 <= i < |s.workers| :: Owing(s.workers[i]) == 0 ==> !Holds(s.workers[i]);
  }

  lemma StaysDrained(s: Pool, a: Action)
    requires Drained(s) && NoLateCall(s) && 0 <= s.jobsLeft && Enabled(s, a) && !a.Call?
    ensures Drained(Next(s, a)) && NoLateCall(Next(s, a))
  {
    hide QueueLimit;
    match a
    case Work(i, top) => WorkStaysDrained(s, i, top);
    case _ =>
  }

  lemma WorkStaysDrained(s: Pool, i: nat, top: Job)
    requires Drained(s) && NoLateCall(s) && WorkEnabled(s, i, top)
    ensures Drained(Worked(s, i, top)) && NoLateCall(Worked(s, i, top))
  {
    assert !Holds(s.workers[i]);
    OneWorker(s, i, top);
    assert Worked(s, i, top).producers == s.producers;
  }

  /** If waitAll is left while no call can still push a job, then from there on, and in particular when the pool
      stops, no job is queued or held, and all accepted jobs have run. */
  lemma {:induction false} WaitedForAll(s: Pool, states: seq<Pool>, actions: seq<Action>, n: nat)
    requires Inv(s) && LeavesWait(s) && NoLateCall(s) && GoesOn(s, states, actions) && n < |states|
    ensures Drained(states[n]) && NoLateCall(states[n]) && AllRun(states[n])
    decreases n
  {
    hide Inv, Drained, NoLateCall, AllRun, Enabled, Next;
    PathInv(states, actions, n);
    if n == 0 {
      DrainedAtZero(s);
    } else {
      WaitedForAll(s, states, actions, n - 1);
      PathInv(states, actions, n - 1);
      Counts(states[n - 1]);
      assert Enabled(states[n - 1], actions[n - 1]) && states[n - 1 + 1] == Next(states[n - 1], actions[n - 1]);
      StaysDrained(states[n - 1], actions[n - 1]);
    }
    DrainedAllRun(states[n]);
  }

  lemma Counts(s: Pool)
    requires Inv(s)
    ensures 0 <= s.jobsLeft
  {
    LeftNotNegative(s);
  }

  lemma DrainedAllRun(s: Pool)
    requires Inv(s) && Drained(s)
    ensures AllRun(s)
  {
    HeldNone(s.workers);
    assert multiset{} + multiset{} + multiset(s.ran) == multiset(s.ran);
  }

  // ----- the other half: a late call loses its job

  lemma GoOn(s: Pool, states: seq<Pool>, actions: seq<Action>, a: Action) returns (more: seq<Pool>, done: seq<Action>)
    requires GoesOn(s, states, actions) && Enabled(states[|actions|], a) && !a.Call?
    ensures GoesOn(s, more, done) && more[|done|] == Next(states[|actions|], a)
  {
    hide Enabled, Next;
    more, done := Extended(states, actions, a);
  }

  /** The pool has stopped with a job in the queue, and no worker holds a job. */
  ghost predicate Stranded(s: Pool) {
    && s.stop && s.joiner == Joining && s.jobs != multiset{} && |s.jobsPerThread| == |s.workers|
    && forall i | 0 <= i < |s.workers| :: !Holds(s.workers[i])
  }

  /** No worker but perhaps `i` has the mutex. */
  ghost predicate OthersOut(s: Pool, i: nat) {
    && i < |s.workers|
    && (s.mutex == if Critical(s.workers[i]) then ByWorker(i) else Nobody)
    && forall k | 0 <= k < |s.workers| && k != i :: !Critical(s.workers[k])
  }

  /** The steps a worker of a stopped pool takes until it exits. */
  function StepsToExit(w: Worker): nat {
    match w
    case Exited => 0
    case Looping => 1
    case Finishing(_) => 2
    case Leaving(_) => 3
    case Counting(_) => 4
    case Ran(_) => 5
    case Running(_) => 6
    case Ready(_) => 7
    case TakingBack => 8
    case Granting => 9
    case Awake => 10
    case Waiting => 11
  }

  const NO_JOB := Job(0, 0)

  lemma StepToExit(s: Pool, i: nat)
    requires Stranded(s) && OthersOut(s, i) && s.workers[i] != Exited
    ensures Enabled(s, Work(i, NO_JOB))
    ensures var t := Next(s, Work(i, NO_JOB));
      && Stranded(t) && OthersOut(t, i) && t.workers == s.workers[i := t.workers[i]]
      && StepsToExit(t.workers[i]) < StepsToExit(s.workers[i])
  {
    assert !Holds(s.workers[i]);
  }

  /** One worker goes on until it exits; it takes a no-op at most. */
  lemma WorkerExits(s: Pool, states: seq<Pool>, actions: seq<Action>, i: nat) returns (more: seq<Pool>, done: seq<Action>)
    requires GoesOn(s, states, actions)
    requires Stranded(states[|actions|]) && OthersOut(states[|actions|], i)
    ensures GoesOn(s, more, done) && Stranded(more[|done|])
    ensures var t := more[|done|]; t.mutex == Nobody && t.workers == states[|actions|].workers[i := Exited]
  {
    hide GoesOn, Stranded, Enabled, Next;
    more, done := states, actions;
    assert |states| == |actions| + 1 by { Shape(s, states, actions); }
    ghost var start := states[|actions|].workers;
    assert start[i := start[i]] == start;
    while more[|done|].workers[i] != Exited
      invariant |more| == |done| + 1 && GoesOn(s, more, done)
      invariant Stranded(more[|done|]) && OthersOut(more[|done|], i)
      invariant more[|done|].workers == start[i := more[|done|].workers[i]]
      decreases StepsToExit(more[|done|].workers[i])
    {
      StepToExit(more[|done|], i);
      more, done := GoOn(s, more, done, Work(i, NO_JOB));
      Shape(s, more, done);
    }
  }

  lemma Shape(s: Pool, states: seq<Pool>, actions: seq<Action>)
    requires GoesOn(s, states, actions)
    ensures |states| == |actions| + 1
  {
  }

  /** All workers exit, and joinAll returns with the job still in the queue. */
  lemma AllExit(s: Pool, states: seq<Pool>, actions: seq<Action>) returns (more: seq<Pool>, done: seq<Action>)
    requires GoesOn(s, states, actions) && Stranded(states[|actions|]) && states[|actions|].mutex == Nobody
    requires forall k | 0 <= k < |states[|actions|].workers| :: !Critical(states[|actions|].workers[k])
    ensures Returns(s, more, done) && more[|done|].jobs != multiset{}
  {
    hide GoesOn;
    more, done := states, actions;
    Shape(s, states, actions);
    var n := |states[|actions|].workers|;
    for i := 0 to n
      invariant |more| == |done| + 1 && GoesOn(s, more, done) && Stranded(more[|done|]) && more[|done|].mutex == Nobody
      invariant |more[|done|].workers| == n
      invariant forall k | 0 <= k < n :: !Critical(more[|done|].workers[k])
      invariant forall k | 0 <= k < i :: more[|done|].workers[k] == Exited
    {
      more, done := WorkerExits(s, more, done, i);
      Shape(s, more, done);
    }
    more, done := GoOn(s, more, done, Join);
  }

  /** waitAll is left and the pool stops. */
  lemma Stops(s: Pool) returns (states: seq<Pool>, actions: seq<Action>)
    requires LeavesWait(s)
    ensures GoesOn(s, states, actions) && states[|actions|] == s.(joiner := Joining, stop := true)
  {
    states, actions := Extended([s], [], Join);
    assert states[0] == s && states[1] == s.(joiner := Stopping);
    states, actions := GoOn(s, states, actions, Join);
  }

  /** A call that passed the check, or still passes it, pushes its job after the stop. */
  lemma PushesLate(s: Pool, p: nat) returns (states: seq<Pool>, actions: seq<Action>)
    requires LeavesWait(s) && s.mutex == Nobody && p < |s.producers| && 0 <= s.jobsLeft
    requires s.producers[p].Admitted? || (s.producers[p].Asking? && QueueLimit(s.maxQueueSize) > 0)
    ensures GoesOn(s, states, actions)
    ensures var t := states[|actions|];
      t.stop && t.joiner == Joining && t.mutex == Nobody && t.workers == s.workers && t.jobsPerThread == s.jobsPerThread
      && t.jobs == s.jobs + multiset{s.producers[p].job}
  {
    hide QueueLimit, GoesOn;
    states, actions := Stops(s);
    if s.producers[p].Asking? {
      states, actions := GoOn(s, states, actions, Produce(p));
    }
    states, actions := GoOn(s, states, actions, Produce(p));
    states, actions := GoOn(s, states, actions, Produce(p));
  }

  /** When no jobs are left, no worker holds one, and only a call that has just pushed its job can have the mutex. */
  lemma NobodyInside(s: Pool)
    requires Inv(s) && !s.stop && s.jobsLeft <= 0
    ensures |s.jobsPerThread| == |s.workers| && 0 <= s.jobsLeft
    ensures forall i | 0 <= i < |s.workers| :: !Holds(s.workers[i]) && !Critical(s.workers[i])
    ensures if s.mutex.ByProducer? then s.mutex.p < |s.producers| && s.producers[s.mutex.p].Pushed? && s.jobs != multiset{}
            else s.mutex == Nobody
    ensures forall p | 0 <= p < |s.producers| :: s.producers[p].Pushed? ==> s.mutex == ByProducer(p)
  {
    hide Total, Conserved, DoneCounted, BusyCounted, ThreadsCounted, NoOpsBounded, Bounded;
    NothingLeft(s);
    LeftNotNegative(s);
    forall i | 0 <= i < |s.workers|
      ensures !Holds(s.workers[i]) && !Critical(s.workers[i])
    {
      assert Owing(s.workers[i]) == 0;
    }
  }

  /** The pool stops with a queued job if some call can still push one. */
  lemma Strands(s: Pool, p: nat) returns (states: seq<Pool>, actions: seq<Action>)
    requires Inv(s) && !s.stop && LeavesWait(s) && p < |s.producers|
    requires !(s.producers[p] == Idle || (s.producers[p].Asking? && QueueLimit(s.maxQueueSize) <= 0))
    ensures GoesOn(s, states, actions) && Stranded(states[|actions|]) && states[|actions|].mutex == Nobody
    ensures states[|actions|].workers == s.workers && forall k | 0 <= k < |s.workers| :: !Critical(s.workers[k])
  {
    hide Inv, GoesOn, QueueLimit, Holds, Critical;
    NobodyInside(s);
    if s.mutex.ByProducer? {
      states, actions := Stops(s);
      states, actions := GoOn(s, states, actions, Produce(s.mutex.p));
    } else {
      states, actions := PushesLate(s, p);
    }
  }

  lemma {:induction false} StopsAtJoin(states: seq<Pool>, actions: seq<Action>, n: nat)
    requires Run(states, actions) && n < |states|
    ensures states[n].stop ==> states[n].joiner == Joining || states[n].joiner == Joined
  {
    if n > 0 {
      StopsAtJoin(states, actions, n - 1);
      StepAt(states, actions, n - 1);
    }
  }

  lemma JobsNotRun(s: Pool)
    requires Inv(s) && s.jobs != multiset{}
    ensures !AllRun(s)
  {
    assert |s.accepted| == |s.jobs| + |HeldJobs(s.workers)| + |s.ran|;
    assert |multiset(s.ran)| == |s.ran|;
  }

  /**
   * joinAll(true) leaves waitAll in a reachable state, and no new call of addJob starts. Whatever the steps are from
   * there on, every accepted job has run when joinAll returns: exactly if no call under way can still push a job.
   */
  lemma WaitAllLaw(before: seq<Pool>, steps: seq<Action>, s: Pool)
    requires Run(before, steps) && s == before[|steps|] && LeavesWait(s)
    ensures (forall states, actions | Returns(s, states, actions) :: AllRun(states[|actions|])) <==> NoLateCall(s)
  {
    hide Inv, AllRun, Run, Enabled, Next, NoNewCall;
    assert |before| == |steps| + 1 by { RunShape(before, steps); }
    RunInv(before, steps, |steps|);
    StopsAtJoin(before, steps, |steps|);
    if NoLateCall(s) {
      forall states, actions | Returns(s, states, actions)
        ensures AllRun(states[|actions|])
      {
        Shape(s, states, actions);
        WaitedForAll(s, states, actions, |actions|);
      }
    } else {
      var p :| 0 <= p < |s.producers|
        && !(s.producers[p] == Idle || (s.producers[p].Asking? && QueueLimit(s.maxQueueSize) <= 0));
      var states, actions := Strands(s, p);
      states, actions := AllExit(s, states, actions);
      InvAtEnd(s, states, actions);
      JobsNotRun(states[|actions|]);
    }
  }

  lemma RunShape(states: seq<Pool>, actions: seq<Action>)
    requires Run(states, actions)
    ensures |states| == |actions| + 1
  {
  }

  lemma InvAtEnd(s: Pool, states: seq<Pool>, actions: seq<Action>)
    requires Inv(s) && GoesOn(s, states, actions)
    ensures Inv(states[|actions|])
  {
    hide Inv;
    PathInv(states, actions, |actions|);
  }

  // ----- priorities

  /** What one worker has run since `base` is in order of priority, and nothing it holds or that is queued comes before. */
  ghost predicate InOrder(s: Pool, base: nat) {
    && |s.workers| == 1 && base <= |s.ran|
    && (forall x, y | base <= x < y < |s.ran| :: s.ran[x].priority >= s.ran[y].priority)
    && (forall x, j | base <= x < |s.ran| && j in s.jobs :: s.ran[x].priority >= j.priority)
    && (Holds(s.workers[0]) ==>
          var held := s.workers[0].task.job;
          && (forall x | base <= x < |s.ran| :: s.ran[x].priority >= held.priority)
          && (forall j | j in s.jobs :: held.priority >= j.priority))
  }

  lemma StaysInOrder(s: Pool, a: Action, base: nat)
    requires InOrder(s, base) && Enabled(s, a) && ProducersIdle(s) && ProducersIdle(Next(s, a))
    ensures InOrder(Next(s, a), base)
  {
    match a
    case Work(i, top) =>
      var w := s.workers[i];
      if w.Awake? && !s.stop {
        PopInOrder(s, i, top, base);
      } else if w.Running? && w.task.Queued? {
        RunInOrder(s, i, top, base);
      } else {
        OneWorker(s, i, top);
        SameJobs(s, i, top);
      }
    case Call(p, job) => CallIsBusy(s, p, job);
    case _ =>
  }

  lemma PopInOrder(s: Pool, i: nat, top: Job, base: nat)
    requires InOrder(s, base) && WorkEnabled(s, i, top) && s.workers[i].Awake? && !s.stop
    ensures InOrder(Worked(s, i, top), base)
  {
    var t := Worked(s, i, top);
    assert forall j | j in t.jobs :: j in s.jobs;
  }

  lemma RunInOrder(s: Pool, i: nat, top: Job, base: nat)
    requires InOrder(s, base) && WorkEnabled(s, i, top) && s.workers[i].Running? && s.workers[i].task.Queued?
    ensures InOrder(Worked(s, i, top), base)
  {
    var job := s.workers[i].task.job;
    var t := Worked(s, i, top);
    assert t == s.(workers := [Ran(Queued(job))], ran := s.ran + [job]);
    assert !Holds(t.workers[0]);
    hide Worked, Held;
  }

  /** A single worker that holds no job, with no addJob under way, runs the queued jobs in order of priority. */
  lemma {:induction false} RunsByPriority(states: seq<Pool>, actions: seq<Action>, m: nat, n: nat)
    requires Run(states, actions) && m <= n < |states|
    requires |states[m].workers| == 1 && !Holds(states[m].workers[0])
    requires forall k | m <= k <= n :: ProducersIdle(states[k])
    ensures InOrder(states[n], |states[m].ran|)
    decreases n
  {
    hide ProducersIdle, Initial, Enabled, Next;
    if n > m {
      hide InOrder;
      RunsByPriority(states, actions, m, n - 1);
      StepAt(states, actions, n - 1);
      StaysInOrder(states[n - 1], actions[n - 1], |states[m].ran|);
    }
  }

  /** The action takes a job from the queue. */
  ghost predicate Takes(s: Pool, a: Action) {
    a.Work? && a.i < |s.workers| && s.workers[a.i].Awake? && !s.stop
  }

  /** The jobs that any workers take from the queue between the steps `m` and `n`, in this order. */
  ghost function Taken(states: seq<Pool>, actions: seq<Action>, m: nat, n: nat): seq<Job>
    requires m <= n <= |actions| < |states|
  {
    if n == m then []
    else Taken(states, actions, m, n - 1) + if Takes(states[n - 1], actions[n - 1]) then [actions[n - 1].top] else []
  }

  /** The jobs taken stand in order of priority, and none that is still queued comes before one of them. */
  ghost predicate ByPriority(taken: seq<Job>, queued: multiset<Job>) {
    && (forall x, y | 0 <= x < y < |taken| :: taken[x].priority >= taken[y].priority)
    && (forall x, j | 0 <= x < |taken| && j in queued :: taken[x].priority >= j.priority)
  }

  lemma StepTakes(s: Pool, a: Action)
    requires Enabled(s, a) && ProducersIdle(s) && ProducersIdle(Next(s, a))
    ensures if Takes(s, a) then IsTop(s.jobs, a.top) && s.jobs == Next(s, a).jobs + multiset{a.top}
            else Next(s, a).jobs == s.jobs
  {
    match a
    case Work(i, top) =>
      if Takes(s, a) {
        assert s.jobs == s.jobs - multiset{top} + multiset{top};
      }
    case Call(p, job) => CallIsBusy(s, p, job);
    case _ =>
  }

  lemma OneMoreTaken(taken: seq<Job>, top: Job, before: multiset<Job>, after: multiset<Job>)
    requires ByPriority(taken, before) && IsTop(before, top) && before == after + multiset{top}
    ensures ByPriority(taken + [top], after)
  {
    assert forall j | j in after :: j in before;
  }

  lemma MovedToTaken(jobs: multiset<Job>, after: multiset<Job>, taken: seq<Job>, top: Job)
    requires jobs == after + multiset{top} + multiset(taken)
    ensures jobs == after + multiset(taken + [top])
  {
    assert multiset(taken + [top]) == multiset(taken) + multiset{top};
  }

  /**
   * Whatever the number of workers: while no addJob is under way, the jobs are taken from the queue in order of
   * priority, and the queue holds the rest.
   */
  lemma {:induction false} TakenByPriority(states: seq<Pool>, actions: seq<Action>, m: nat, n: nat)
    requires Path(states, actions) && m <= n < |states|
    requires forall k | m <= k <= n :: ProducersIdle(states[k])
    ensures ByPriority(Taken(states, actions, m, n), states[n].jobs)
    ensures states[m].jobs == states[n].jobs + multiset(Taken(states, actions, m, n))
    decreases n
  {
    hide ProducersIdle, Enabled, Next, ByPriority;
    if n == m {
      NothingTaken(states[n].jobs);
    } else {
      TakenByPriority(states, actions, m, n - 1);
      assert Enabled(states[n - 1], actions[n - 1]) && states[n - 1 + 1] == Next(states[n - 1], actions[n - 1]);
      StepTakes(states[n - 1], actions[n - 1]);
      var taken := Taken(states, actions, m, n - 1);
      if Takes(states[n - 1], actions[n - 1]) {
        OneMoreTaken(taken, actions[n - 1].top, states[n - 1].jobs, states[n].jobs);
        MovedToTaken(states[m].jobs, states[n].jobs, taken, actions[n - 1].top);
      } else {
        assert taken + [] == taken;
      }
    }
  }

  lemma NothingTaken(queued: multiset<Job>)
    ensures ByPriority([], queued)
    ensures queued == queued + multiset([])
  {
  }

  // ----- runs built step by step

  ghost function New(threads: nat, maxQueueSize: nat, callers: nat): (s: Pool)
    ensures Initial(s)
  {
    Pool(maxQueueSize, multiset{}, Nobody, 0, 0, 0, false, seq(threads, _ => 0), seq(threads, _ => Looping),
         seq(callers, _ => Idle), Away, multiset{}, [], 0)
  }

  lemma Start(s: Pool) returns (states: seq<Pool>, actions: seq<Action>)
    requires Initial(s)
    ensures Run(states, actions) && states == [s] && actions == []
  {
    states, actions := [s], [];
  }

  /** A step whose outcome is known. */
  lemma Step(states: seq<Pool>, actions: seq<Action>, a: Action, t: Pool) returns (more: seq<Pool>, done: seq<Action>)
    requires Run(states, actions) && |states| == |actions| + 1 && Enabled(states[|actions|], a) && t == Next(states[|actions|], a)
    ensures Run(more, done) && done == actions + [a] && |more| == |done| + 1 && more[|done|] == t
  {
    more, done := Extended(states, actions, a);
  }

  /** The shortest loss: addJob has passed its check when joinAll(true) sees no jobs and stops the pool; the job is then
      accepted and never run. */
  lemma LateJobIsLost(job: Job) returns (states: seq<Pool>, actions: seq<Action>)
    ensures Run(states, actions)
    ensures actions == [Call(0, job), Produce(0), JoinAll(true), Join, Join, Produce(0), Produce(0), Work(0, job), Join]
    ensures states[9].joiner == Joined && ProducersIdle(states[9])
    ensures states[9].accepted == multiset{job} && states[9].ran == []
  {
    hide Run;
    states, actions := StoppedTooEarly(job);
    var s := states[5];
    s := s.(producers := [Pushed], mutex := ByProducer(0), jobs := multiset{job}, accepted := multiset{job});
    states, actions := Step(states, actions, Produce(0), s);
    s := s.(producers := [Idle], mutex := Nobody, jobsLeft := 1);
    states, actions := Step(states, actions, Produce(0), s);
    s := s.(workers := [Exited]);
    states, actions := Step(states, actions, Work(0, job), s);
    s := s.(joiner := Joined);
    states, actions := Step(states, actions, Join, s);
  }

  lemma StoppedTooEarly(job: Job) returns (states: seq<Pool>, actions: seq<Action>)
    ensures Run(states, actions) && |states| == 6
    ensures actions == [Call(0, job), Produce(0), JoinAll(true), Join, Join]
    ensures states[5] == New(1, 1, 1).(producers := [Admitted(job)], joiner := Joining, stop := true)
  {
    hide Run;
    states, actions := Start(New(1, 1, 1));
    var s := states[0];
    s := s.(producers := [Asking(job)]);
    states, actions := Step(states, actions, Call(0, job), s);
    s := s.(producers := [Admitted(job)]);
    states, actions := Step(states, actions, Produce(0), s);
    s := s.(joiner := Asked);
    states, actions := Step(states, actions, JoinAll(true), s);
    s := s.(joiner := Stopping);
    states, actions := Step(states, actions, Join, s);
    s := s.(joiner := Joining, stop := true);
    states, actions := Step(states, actions, Join, s);
  }

  // ----- the bound on the queue is met by a run for every limit and every number of callers

  ghost function Loaded(s: Pool, job: Job, n: nat, producers: seq<Producer>): Pool {
    var jobs: multiset<Job> := multiset{}[job := n];
    s.(jobs := jobs, accepted := jobs, jobsLeft := n, producers := producers)
  }

  /** The first `p` producers stand at `first`, the others at `rest`. */
  ghost function Front(callers: nat, p: nat, first: Producer, rest: Producer): (ps: seq<Producer>)
    ensures |ps| == callers
  {
    seq(callers, i => if i < p then first else rest)
  }

  /** One admitted call goes on to push its job and to count it. */
  lemma PushOne(states: seq<Pool>, actions: seq<Action>, s: Pool, job: Job, n: nat, ps: seq<Producer>, p: nat)
    returns (more: seq<Pool>, done: seq<Action>)
    requires Run(states, actions) && |states| == |actions| + 1 && Initial(s)
    requires states[|actions|] == Loaded(s, job, n, ps) && p < |ps| && ps[p] == Admitted(job)
    ensures Run(more, done) && |more| == |done| + 1 && more[|done|] == Loaded(s, job, n + 1, ps[p := Idle])
  {
    hide Run;
    var jobs: multiset<Job> := multiset{}[job := n + 1];
    var pushed := Loaded(s, job, n, ps).(producers := ps[p := Pushed], mutex := ByProducer(p), jobs := jobs, accepted := jobs);
    assert multiset{}[job := n] + multiset{job} == jobs;
    more, done := Step(states, actions, Produce(p), pushed);
    assert ps[p := Pushed][p := Idle] == ps[p := Idle];
    more, done := Step(more, done, Produce(p), Loaded(s, job, n + 1, ps[p := Idle]));
  }

  lemma AdmitOne(states: seq<Pool>, actions: seq<Action>, s: Pool, job: Job, n: nat, ps: seq<Producer>, p: nat)
    returns (more: seq<Pool>, done: seq<Action>)
    requires Run(states, actions) && |states| == |actions| + 1 && Initial(s) && n < QueueLimit(s.maxQueueSize)
    requires states[|actions|] == Loaded(s, job, n, ps) && p < |ps| && ps[p] == Idle
    ensures Run(more, done) && |more| == |done| + 1 && more[|done|] == Loaded(s, job, n, ps[p := Admitted(job)])
  {
    hide Run;
    more, done := Step(states, actions, Call(p, job), Loaded(s, job, n, ps[p := Asking(job)]));
    assert ps[p := Asking(job)][p := Admitted(job)] == ps[p := Admitted(job)];
    more, done := Step(more, done, Produce(p), Loaded(s, job, n, ps[p := Admitted(job)]));
  }

  lemma BoundIsReached(threads: nat, maxQueueSize: nat, callers: nat, job: Job) returns (states: seq<Pool>, actions: seq<Action>)
    requires QueueLimit(maxQueueSize) > 0 && callers > 0
    ensures Run(states, actions)
    ensures var s := states[|actions|];
      && s.maxQueueSize == maxQueueSize && |s.producers| == callers && !s.stop
      && s.jobsLeft == QueueLimit(maxQueueSize) + callers - 1
  {
    hide Run, Initial;
    var s := New(threads, maxQueueSize, callers);
    states, actions := Start(s);
    var idle := Front(callers, 0, Idle, Idle);
    assert s.producers == idle;
    for n := 0 to QueueLimit(maxQueueSize) - 1
      invariant Run(states, actions) && |states| == |actions| + 1 && states[|actions|] == Loaded(s, job, n, idle)
    {
      states, actions := AdmitOne(states, actions, s, job, n, idle, 0);
      states, actions := PushOne(states, actions, s, job, n, idle[0 := Admitted(job)], 0);
      assert idle[0 := Admitted(job)][0 := Idle] == idle;
    }
    var n := QueueLimit(maxQueueSize) - 1;
    assert idle == Front(callers, 0, Admitted(job), Idle);
    for p := 0 to callers
      invariant Run(states, actions) && |states| == |actions| + 1
      invariant states[|actions|] == Loaded(s, job, n, Front(callers, p, Admitted(job), Idle))
    {
      states, actions := AdmitOne(states, actions, s, job, n, Front(callers, p, Admitted(job), Idle), p);
      assert Front(callers, p, Admitted(job), Idle)[p := Admitted(job)] == Front(callers, p + 1, Admitted(job), Idle);
    }
    assert Front(callers, callers, Admitted(job), Idle) == Front(callers, 0, Idle, Admitted(job));
    for p := 0 to callers
      invariant Run(states, actions) && |states| == |actions| + 1
      invariant states[|actions|] == Loaded(s, job, n + p, Front(callers, p, Idle, Admitted(job)))
    {
      states, actions := PushOne(states, actions, s, job, n + p, Front(callers, p, Idle, Admitted(job)), p);
      assert Front(callers, p, Idle, Admitted(job))[p := Idle] == Front(callers, p + 1, Idle, Admitted(job));
    }
  }
}
