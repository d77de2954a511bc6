/**
 * The parallel test dispatcher of test.py: one main thread, any number of worker threads, a FIFO input
 * queue, an output queue and a flag set by the keyboard-interrupt handler.
 *
 * The threads are a transition system over atomic actions, so a sequence of actions is one interleaving.
 * A job is named by its position in the order of creation: the real jobs are 0 .. n-1 and the sentinels
 * that stop the workers are n .. n+P-1.
 */
module Dispatcher {
  import opened Sums

  datatype Job = Job(isBreak: bool, isSkip: bool, returncode: int)

  datatype Worker =
    | Waiting                // about to take from the input queue
    | Holding(job: nat)      // a job was taken, its flags are not yet looked at
    | Launched(job: nat)     // the job is running
    | Reporting(job: nat)    // about to put the job on the output queue
    | Exited(job: nat)       // returned after taking this sentinel

  datatype Main = Spawning | Dispatching | Stopping | Collecting | Joining(next: nat) | Finished

  datatype Outcome = Interrupted | Skipped | Passed | Failed | ValgrindError | Crashed

  datatype Tally = Tally(passed: nat, failed: nat, skipped: nat, crashed: nat, valgrind: nat)

  /** The work list (the skip flag of each job, in dispatch order) and the number of worker threads. */
  datatype Config = Config(skips: seq<bool>, processors: nat)

  /** `collected` and `ran` record history: the jobs main has taken, and those a worker has executed. */
  datatype State = State(
    jobs: seq<Job>, input: seq<nat>, output: seq<nat>, workers: seq<Worker>, main: Main,
    threadExit: bool, tally: Tally, collected: seq<nat>, ran: set<nat>)

  datatype Action = WorkerStep(w: nat, code: int) | MainStep | Sigint

  // ----- what one job counts as -----

  function Classify(job: Job): Outcome {
    if job.isBreak then Interrupted
    else if job.isSkip then Skipped
    else if job.returncode == 0 then Passed
    else if job.returncode == 1 then Failed
    else if job.returncode == 2 then ValgrindError
    else Crashed
  }

  function Bump(t: Tally, o: Outcome): Tally {
    match o
    case Interrupted => t
    case Skipped => t.(skipped := t.skipped + 1)
    case Passed => t.(passed := t.passed + 1)
    case Failed => t.(failed := t.failed + 1)
    case ValgrindError => t.(valgrind := t.valgrind + 1)
    case Crashed => t.(crashed := t.crashed + 1)
  }

  const NO_RESULTS := Tally(0, 0, 0, 0, 0)

  function ExitCode(total: nat, t: Tally): int {
    if t.passed + t.skipped == total then 0 else 1
  }

  // ----- the transition system -----

  function Init(): State {
    State([], [], [], [], Spawning, false, NO_RESULTS, [], {})
  }

  predicate WorkerReady(s: State, w: nat) {
    w < |s.workers| && !s.workers[w].Exited? && (s.workers[w].Waiting? ==> s.input != [])
  }

  predicate MainReady(c: Config, s: State) {
    match s.main
    case Finished => false
    case Collecting => |s.collected| < |c.skips| ==> s.output != []
    case Joining(next) => next < |s.workers| ==> s.workers[next].Exited?
    case _ => true
  }

  /** Every job on the output queue or in a worker's hands exists. */
  predicate InRange(s: State) {
    && (forall w :: 0 <= w < |s.workers| && !s.workers[w].Waiting? ==> s.workers[w].job < |s.jobs|)
    && (forall k :: 0 <= k < |s.output| ==> s.output[k] < |s.jobs|)
  }

  predicate Enabled(c: Config, s: State, a: Action) {
    match a
    case WorkerStep(w, _) => WorkerReady(s, w) && InRange(s)
    case MainStep => MainReady(c, s) && InRange(s)
    case Sigint => true
  }

  /** One atomic action of a worker; `code` is what the job's process returns if this action runs it. */
  function WorkerNext(s: State, w: nat, code: int): State
    requires WorkerReady(s, w) && InRange(s)
  {
    match s.workers[w]
    case Waiting => s.(input := s.input[1..], workers := s.workers[w := Holding(s.input[0])])
    case Holding(j) =>
      if s.jobs[j].isBreak then s.(workers := s.workers[w := Exited(j)])
      else if s.threadExit then
        s.(jobs := s.jobs[j := s.jobs[j].(isBreak := true)], workers := s.workers[w := Reporting(j)])
      else if s.jobs[j].isSkip then s.(workers := s.workers[w := Reporting(j)])
      else s.(workers := s.workers[w := Launched(j)])
    case Launched(j) =>
      s.(jobs := s.jobs[j := s.jobs[j].(returncode := code)],
         workers := s.workers[w := Reporting(j)], ran := s.ran + {j})
    case Reporting(j) => s.(output := s.output + [j], workers := s.workers[w := Waiting])
    case Exited(_) => s
  }

  function PutJob(s: State, job: Job): State {
    s.(input := s.input + [|s.jobs|], jobs := s.jobs + [job])
  }

  function MainNext(c: Config, s: State): State
    requires MainReady(c, s) && InRange(s)
  {
    match s.main
    case Spawning =>
      if |s.workers| < c.processors then s.(workers := s.workers + [Waiting]) else s.(main := Dispatching)
    case Dispatching =>
      if |s.jobs| < |c.skips| then PutJob(s, Job(false, c.skips[|s.jobs|], 0)) else s.(main := Stopping)
    case Stopping =>
      if |s.jobs| < |c.skips| + c.processors then PutJob(s, Job(true, false, 0)) else s.(main := Collecting)
    case Collecting =>
      if |s.collected| < |c.skips| then
        s.(output := s.output[1..], collected := s.collected + [s.output[0]],
           tally := Bump(s.tally, Classify(s.jobs[s.output[0]])))
      else s.(main := Joining(0))
    case Joining(next) =>
      if next < |s.workers| then s.(main := Joining(next + 1)) else s.(main := Finished)
    case Finished => s
  }

  function Next(c: Config, s: State, a: Action): State
    requires Enabled(c, s, a)
  {
    match a
    case WorkerStep(w, code) => WorkerNext(s, w, code)
    case MainStep => MainNext(c, s)
    case Sigint => s.(threadExit := true)
  }

  // ----- the invariant -----

  ghost function Holds(r: nat): Worker -> nat { (w: Worker) => if !w.Waiting? && w.job == r then 1 else 0 }

  ghost function Busy(): Worker -> nat { (w: Worker) => if w.Waiting? then 0 else 1 }

  ghost function TookSentinel(n: nat): Worker -> nat { (w: Worker) => if !w.Waiting? && w.job >= n then 1 else 0 }

  /** In how many places job `r` is: the two queues, the workers' hands and main's results. */
  ghost function Places(s: State, r: nat): nat {
    multiset(s.input)[r] + Sum(s.workers, Holds(r)) + multiset(s.output)[r] + multiset(s.collected)[r]
  }

  ghost predicate Shape(c: Config, s: State) {
    var n, p := |c.skips|, c.processors;
    && |s.workers| <= p && |s.jobs| <= n + p && |s.collected| <= n
    && (s.main.Spawning? ==> s.jobs == [])
    && (!s.main.Spawning? ==> |s.workers| == p)
    && (s.main.Dispatching? ==> |s.jobs| <= n)
    && (s.main.Stopping? ==> n <= |s.jobs|)
    && (s.main.Collecting? || s.main.Joining? || s.main.Finished? ==> |s.jobs| == n + p)
    && (s.main.Joining? || s.main.Finished? ==> |s.collected| == n)
    && (s.main.Joining? ==> s.main.next <= p && forall k :: 0 <= k < s.main.next ==> s.workers[k].Exited?)
    && (s.main.Finished? ==> forall k :: 0 <= k < p ==> s.workers[k].Exited?)
  }

  /** The input queue holds the most recently created jobs, in order of creation. */
  ghost predicate Fifo(s: State) {
    && |s.input| <= |s.jobs|
    && forall k :: 0 <= k < |s.input| ==> s.input[k] == |s.jobs| - |s.input| + k
  }

  ghost predicate OnePlace(s: State) {
    forall r: nat :: Places(s, r) == if r < |s.jobs| then 1 else 0
  }

  ghost predicate Counts(c: Config, s: State) {
    && |s.input| + Sum(s.workers, Busy()) + |s.output| + |s.collected| == |s.jobs|
    && Sum(s.workers, TookSentinel(|c.skips|)) ==
       (if |s.jobs| - |s.input| > |c.skips| then |s.jobs| - |s.input| - |c.skips| else 0)
  }

  /** Job `r` has not been touched by a worker. */
  ghost predicate Fresh(jobs: seq<Job>, ran: set<nat>, r: nat) {
    r < |jobs| && !jobs[r].isBreak && r !in ran
  }

  /** A worker is through with job `r`: it was interrupted, was to be skipped, or was executed. */
  ghost predicate Settled(c: Config, jobs: seq<Job>, ran: set<nat>, r: nat) {
    r < |c.skips| && r < |jobs| && (jobs[r].isBreak || jobs[r].isSkip || r in ran)
  }

  ghost predicate HandOk(c: Config, jobs: seq<Job>, ran: set<nat>, w: Worker) {
    match w
    case Waiting => true
    case Holding(j) => j < |jobs| && (j < |c.skips| ==> Fresh(jobs, ran, j))
    case Launched(j) => j < |c.skips| && Fresh(jobs, ran, j) && !jobs[j].isSkip
    case Reporting(j) => Settled(c, jobs, ran, j)
    case Exited(j) => |c.skips| <= j < |jobs|
  }

  ghost predicate RecordOk(c: Config, r: nat, job: Job, threadExit: bool, ran: set<nat>) {
    && (r < |c.skips| ==> job.isSkip == c.skips[r] && (job.isBreak ==> threadExit))
    && (r >= |c.skips| ==> job.isBreak)
    && (r in ran ==> r < |c.skips| && !job.isBreak && !job.isSkip)
  }

  ghost predicate Records(c: Config, s: State) {
    && (forall r :: 0 <= r < |s.jobs| ==> RecordOk(c, r, s.jobs[r], s.threadExit, s.ran))
    && (forall r :: r in s.ran ==> r < |s.jobs|)
    && (forall k :: 0 <= k < |s.input| && s.input[k] < |c.skips| ==> Fresh(s.jobs, s.ran, s.input[k]))
    && (forall w :: 0 <= w < |s.workers| ==> HandOk(c, s.jobs, s.ran, s.workers[w]))
    && (forall k :: 0 <= k < |s.output| ==> Settled(c, s.jobs, s.ran, s.output[k]))
    && (forall k :: 0 <= k < |s.collected| ==> Settled(c, s.jobs, s.ran, s.collected[k]))
  }

  ghost function TallyOf(jobs: seq<Job>, refs: seq<nat>): Tally
    requires forall k :: 0 <= k < |refs| ==> refs[k] < |jobs|
  {
    if refs == [] then NO_RESULTS
    else Bump(TallyOf(jobs, refs[..|refs| - 1]), Classify(jobs[refs[|refs| - 1]]))
  }

  ghost predicate Inv(c: Config, s: State) {
    && Shape(c, s) && Fifo(s) && OnePlace(s) && Counts(c, s) && Records(c, s)
    && s.tally == TallyOf(s.jobs, s.collected)
  }

  // ----- every action keeps the invariant -----

  lemma InitInv(c: Config)
    ensures Inv(c, Init())
  {
  }

  /** The four sums over the workers after worker `w` changes to `x`. */
  lemma SumsAfter(c: Config, s: State, w: nat, x: Worker)
    requires w < |s.workers|
    ensures forall r: nat ::
              Sum(s.workers[w := x], Holds(r)) + Holds(r)(s.workers[w]) == Sum(s.workers, Holds(r)) + Holds(r)(x)
    ensures Sum(s.workers[w := x], Busy()) + Busy()(s.workers[w]) == Sum(s.workers, Busy()) + Busy()(x)
    ensures var n := |c.skips|;
            Sum(s.workers[w := x], TookSentinel(n)) + TookSentinel(n)(s.workers[w]) ==
            Sum(s.workers, TookSentinel(n)) + TookSentinel(n)(x)
  {
    forall r: nat {
      SumUpdate(s.workers, w, x, Holds(r));
    }
    SumUpdate(s.workers, w, x, Busy());
    SumUpdate(s.workers, w, x, TookSentinel(|c.skips|));
  }

  /** A job in a worker's hands is nowhere else. */
  lemma HeldAlone(s: State, w: nat)
    requires OnePlace(s) && w < |s.workers| && !s.workers[w].Waiting?
    ensures var r := s.workers[w].job;
            r !in s.input && r !in s.output && r !in s.collected &&
            forall k :: 0 <= k < |s.workers| && k != w && !s.workers[k].Waiting? ==> s.workers[k].job != r
  {
    var r := s.workers[w].job;
    SumAtLeast(s.workers, w, Holds(r));
    assert Places(s, r) <= 1;
    forall k | 0 <= k < |s.workers| && k != w && !s.workers[k].Waiting?
      ensures s.workers[k].job != r
    {
      SumAtLeastTwo(s.workers, if k < w then k else w, if k < w then w else k, Holds(r));
    }
  }

  /** Changing one job's record leaves the tally of other jobs alone. */
  lemma {:induction false} TallyFrame(jobs: seq<Job>, jobs': seq<Job>, refs: seq<nat>)
    requires forall k :: 0 <= k < |refs| ==> refs[k] < |jobs| && refs[k] < |jobs'| && jobs[refs[k]] == jobs'[refs[k]]
    ensures TallyOf(jobs, refs) == TallyOf(jobs', refs)
  {
    if refs != [] {
      TallyFrame(jobs, jobs', refs[..|refs| - 1]);
    }
  }

  /** A step that moves no job and creates none. */
  lemma NothingMoves(c: Config, s: State, s': State)
    requires Fifo(s) && OnePlace(s) && Counts(c, s)
    requires s'.input == s.input && s'.workers == s.workers && s'.output == s.output && s'.collected == s.collected
    requires |s'.jobs| == |s.jobs|
    ensures Fifo(s') && OnePlace(s') && Counts(c, s')
  {
    assert forall r: nat :: Places(s', r) == Places(s, r);
  }

  lemma TakePlaces(c: Config, s: State, s': State, w: nat)
    requires Fifo(s) && OnePlace(s) && Counts(c, s)
    requires w < |s.workers| && s.workers[w].Waiting? && s.input != []
    requires s' == s.(input := s.input[1..], workers := s.workers[w := Holding(s.input[0])])
    ensures Fifo(s') && OnePlace(s') && Counts(c, s')
  {
    SumsAfter(c, s, w, Holding(s.input[0]));
    assert s.input == [s.input[0]] + s'.input;
    assert s.input[0] == |s.jobs| - |s.input|;
    forall r: nat
      ensures Places(s', r) == Places(s, r)
    {
    }
  }

  lemma TakeKeepsInv(c: Config, s: State, w: nat, code: int)
    requires Inv(c, s) && Enabled(c, s, WorkerStep(w, code)) && s.workers[w].Waiting?
    ensures Inv(c, WorkerNext(s, w, code))
  {
    TakePlaces(c, s, WorkerNext(s, w, code), w);
    assert s.input[0] == |s.jobs| - |s.input|;
  }

  /** Worker `w` keeps its job and only changes what it is about to do with it: nothing moves. */
  lemma SameHand(c: Config, s: State, s': State, w: nat)
    requires Fifo(s) && OnePlace(s) && Counts(c, s)
    requires w < |s.workers| && |s'.workers| == |s.workers| && s'.workers == s.workers[w := s'.workers[w]]
    requires !s.workers[w].Waiting? && !s'.workers[w].Waiting? && s.workers[w].job == s'.workers[w].job
    requires s'.input == s.input && s'.output == s.output && s'.collected == s.collected && |s'.jobs| == |s.jobs|
    ensures Fifo(s') && OnePlace(s') && Counts(c, s')
  {
    SumsAfter(c, s, w, s'.workers[w]);
    forall r: nat
      ensures Places(s', r) == Places(s, r)
    {
    }
  }

  /** Worker `w` may rewrite the record of the job in its hands: no other record or tally is affected. */
  lemma OnlyHeldRecord(c: Config, s: State, s': State, w: nat)
    requires OnePlace(s) && Records(c, s) && s.tally == TallyOf(s.jobs, s.collected)
    requires w < |s.workers| && |s'.workers| == |s.workers| && s'.workers == s.workers[w := s'.workers[w]]
    requires !s.workers[w].Waiting? && s.workers[w].job < |s.jobs|
    requires s'.input == s.input && s'.output == s.output && s'.collected == s.collected
    requires s'.threadExit == s.threadExit && s'.tally == s.tally
    requires var j := s.workers[w].job;
             && |s'.jobs| == |s.jobs| && s'.jobs == s.jobs[j := s'.jobs[j]] && s.ran <= s'.ran <= s.ran + {j}
             && HandOk(c, s'.jobs, s'.ran, s'.workers[w])
             && RecordOk(c, j, s'.jobs[j], s'.threadExit, s'.ran)
    ensures Records(c, s') && s'.tally == TallyOf(s'.jobs, s'.collected)
  {
    HeldAlone(s, w);
    TallyFrame(s.jobs, s'.jobs, s.collected);
  }

  lemma InspectKeepsInv(c: Config, s: State, w: nat, code: int)
    requires Inv(c, s) && Enabled(c, s, WorkerStep(w, code)) && s.workers[w].Holding?
    ensures Inv(c, WorkerNext(s, w, code))
  {
    var s' := WorkerNext(s, w, code);
    assert HandOk(c, s.jobs, s.ran, s.workers[w]);
    assert RecordOk(c, s.workers[w].job, s.jobs[s.workers[w].job], s.threadExit, s.ran);
    SameHand(c, s, s', w);
    OnlyHeldRecord(c, s, s', w);
  }

  lemma FinishKeepsInv(c: Config, s: State, w: nat, code: int)
    requires Inv(c, s) && Enabled(c, s, WorkerStep(w, code)) && s.workers[w].Launched?
    ensures Inv(c, WorkerNext(s, w, code))
  {
    var s' := WorkerNext(s, w, code);
    assert HandOk(c, s.jobs, s.ran, s.workers[w]);
    assert RecordOk(c, s.workers[w].job, s.jobs[s.workers[w].job], s.threadExit, s.ran);
    SameHand(c, s, s', w);
    OnlyHeldRecord(c, s, s', w);
  }

  lemma ReportPlaces(c: Config, s: State, s': State, w: nat)
    requires Fifo(s) && OnePlace(s) && Counts(c, s)
    requires w < |s.workers| && s.workers[w].Reporting? && s.workers[w].job < |c.skips|
    requires s' == s.(output := s.output + [s.workers[w].job], workers := s.workers[w := Waiting])
    ensures Fifo(s') && OnePlace(s') && Counts(c, s')
  {
    SumsAfter(c, s, w, Waiting);
    forall r: nat
      ensures Places(s', r) == Places(s, r)
    {
    }
  }

  lemma ReportKeepsInv(c: Config, s: State, w: nat, code: int)
    requires Inv(c, s) && Enabled(c, s, WorkerStep(w, code)) && s.workers[w].Reporting?
    ensures Inv(c, WorkerNext(s, w, code))
  {
    assert HandOk(c, s.jobs, s.ran, s.workers[w]);
    ReportPlaces(c, s, WorkerNext(s, w, code), w);
  }

  lemma SpawnPlaces(c: Config, s: State, s': State)
    requires Fifo(s) && OnePlace(s) && Counts(c, s)
    requires s' == s.(workers := s.workers + [Waiting])
    ensures Fifo(s') && OnePlace(s') && Counts(c, s')
  {
    forall r: nat
      ensures Places(s', r) == Places(s, r)
    {
      SumAppend(s.workers, Waiting, Holds(r));
    }
    SumAppend(s.workers, Waiting, Busy());
    SumAppend(s.workers, Waiting, TookSentinel(|c.skips|));
  }

  lemma SpawnRecords(c: Config, s: State, s': State)
    requires Records(c, s) && s' == s.(workers := s.workers + [Waiting])
    ensures Records(c, s')
  {
    forall w | 0 <= w < |s'.workers|
      ensures HandOk(c, s.jobs, s.ran, s'.workers[w])
    {
    }
  }

  lemma SpawnKeepsInv(c: Config, s: State)
    requires Inv(c, s) && Enabled(c, s, MainStep) && s.main.Spawning?
    ensures Inv(c, MainNext(c, s))
  {
    var s' := MainNext(c, s);
    if |s.workers| < c.processors {
      SpawnPlaces(c, s, s');
      SpawnRecords(c, s, s');
      assert Shape(c, s');
    } else {
      NothingMoves(c, s, s');
      assert Shape(c, s') && Records(c, s');
    }
  }

  /** Creating a job: it is at the end of the input queue and nowhere else. */
  lemma PutJobPlaces(c: Config, s: State, job: Job)
    requires Fifo(s) && OnePlace(s) && Counts(c, s)
    ensures Fifo(PutJob(s, job)) && OnePlace(PutJob(s, job)) && Counts(c, PutJob(s, job))
  {
    var s' := PutJob(s, job);
    forall r: nat
      ensures Places(s', r) == Places(s, r) + (if r == |s.jobs| then 1 else 0)
    {
    }
  }

  lemma PutJobRecords(c: Config, s: State, job: Job)
    requires Records(c, s) && s.tally == TallyOf(s.jobs, s.collected)
    requires RecordOk(c, |s.jobs|, job, s.threadExit, s.ran) && (|s.jobs| < |c.skips| ==> !job.isBreak)
    ensures Records(c, PutJob(s, job)) && s.tally == TallyOf(PutJob(s, job).jobs, s.collected)
  {
    TallyFrame(s.jobs, s.jobs + [job], s.collected);
  }

  lemma PutKeepsInv(c: Config, s: State)
    requires Inv(c, s) && Enabled(c, s, MainStep) && (s.main.Dispatching? || s.main.Stopping?)
    ensures Inv(c, MainNext(c, s))
  {
    var s' := MainNext(c, s);
    if s'.main == s.main {
      PutJobPlaces(c, s, s'.jobs[|s.jobs|]);
      PutJobRecords(c, s, s'.jobs[|s.jobs|]);
    } else {
      NothingMoves(c, s, s');
    }
  }

  lemma CollectKeepsInv(c: Config, s: State)
    requires Inv(c, s) && Enabled(c, s, MainStep) && s.main.Collecting?
    ensures Inv(c, MainNext(c, s))
  {
    if |s.collected| < |c.skips| {
      TakeResultKeepsInv(c, s);
    } else {
      NothingMoves(c, s, MainNext(c, s));
    }
  }

  lemma TakeResultKeepsInv(c: Config, s: State)
    requires Inv(c, s) && Enabled(c, s, MainStep) && s.main.Collecting? && |s.collected| < |c.skips|
    ensures Inv(c, MainNext(c, s))
  {
    var s' := MainNext(c, s);
    CollectRecords(c, s, s');
    CollectTally(s.jobs, s.collected, s.output[0]);
    CollectPlaces(s, s');
  }

  lemma CollectTally(jobs: seq<Job>, refs: seq<nat>, r: nat)
    requires (forall k :: 0 <= k < |refs| ==> refs[k] < |jobs|) && r < |jobs|
    ensures TallyOf(jobs, refs + [r]) == Bump(TallyOf(jobs, refs), Classify(jobs[r]))
  {
    assert (refs + [r])[..|refs|] == refs;
  }

  lemma CollectRecords(c: Config, s: State, s': State)
    requires Records(c, s) && s.output != [] && s'.workers == s.workers && s'.input == s.input
    requires s'.jobs == s.jobs && s'.ran == s.ran && s'.threadExit == s.threadExit
    requires s'.output == s.output[1..] && s'.collected == s.collected + [s.output[0]]
    ensures Records(c, s')
  {
    assert Settled(c, s.jobs, s.ran, s.output[0]);
  }

  lemma CollectPlaces(s: State, s': State)
    requires OnePlace(s) && s.output != [] && s'.workers == s.workers && s'.input == s.input
    requires s'.jobs == s.jobs && s'.output == s.output[1..] && s'.collected == s.collected + [s.output[0]]
    ensures OnePlace(s')
  {
    assert s.output == [s.output[0]] + s'.output;
    forall r: nat
      ensures Places(s', r) == Places(s, r)
    {
    }
  }

  lemma JoinKeepsInv(c: Config, s: State)
    requires Inv(c, s) && Enabled(c, s, MainStep) && s.main.Joining?
    ensures Inv(c, MainNext(c, s))
  {
    NothingMoves(c, s, MainNext(c, s));
  }

  lemma SigintKeepsInv(c: Config, s: State)
    requires Inv(c, s)
    ensures Inv(c, s.(threadExit := true))
  {
    NothingMoves(c, s, s.(threadExit := true));
  }

  lemma NextKeepsInv(c: Config, s: State, a: Action)
    requires Inv(c, s) && Enabled(c, s, a)
    ensures Inv(c, Next(c, s, a))
  {
    match a
    case WorkerStep(w, code) =>
      match s.workers[w] {
        case Waiting => TakeKeepsInv(c, s, w, code);
        case Holding(_) => InspectKeepsInv(c, s, w, code);
        case Launched(_) => FinishKeepsInv(c, s, w, code);
        case Reporting(_) => ReportKeepsInv(c, s, w, code);
      }
    case MainStep =>
      match s.main {
        case Spawning => SpawnKeepsInv(c, s);
        case Collecting => CollectKeepsInv(c, s);
        case Joining(_) => JoinKeepsInv(c, s);
        case _ => PutKeepsInv(c, s);
      }
    case Sigint => SigintKeepsInv(c, s);
  }

  // ----- every run ends -----

  ghost function Effort(): Worker -> nat {
    (w: Worker) => match w case Holding(_) => 3 case Launched(_) => 2 case Reporting(_) => 1 case _ => 0
  }

  /** What main still has to do; creating a job pays for the worker actions that job will need. */
  ghost function MainLeft(c: Config, s: State): int {
    var n, p := |c.skips|, c.processors;
    match s.main
    case Spawning => (p - |s.workers|) + 6 * n + 6 * p + 5
    case Dispatching => 5 * (n - |s.jobs|) + n + 6 * p + 4
    case Stopping => 5 * (n + p - |s.jobs|) + n + p + 3
    case Collecting => (n - |s.collected|) + p + 2
    case Joining(next) => (p - next) + 1
    case Finished => 0
  }

  ghost function Measure(c: Config, s: State): int {
    MainLeft(c, s) + 4 * |s.input| + Sum(s.workers, Effort())
  }

  lemma MeasureNonNegative(c: Config, s: State)
    requires Shape(c, s)
    ensures 0 <= Measure(c, s)
  {
  }

  lemma WorkerShrinksMeasure(c: Config, s: State, w: nat, code: int)
    requires Enabled(c, s, WorkerStep(w, code))
    ensures Measure(c, WorkerNext(s, w, code)) < Measure(c, s)
  {
    var s' := WorkerNext(s, w, code);
    WorkerEffort(s, w, code);
    SumUpdate(s.workers, w, s'.workers[w], Effort());
    MainUnmoved(c, s, s');
  }

  /** What worker `w` has left to do, and what there is to take, become less together. */
  lemma WorkerEffort(s: State, w: nat, code: int)
    requires WorkerReady(s, w) && InRange(s)
    ensures var s' := WorkerNext(s, w, code);
            && |s'.workers| == |s.workers| && s'.workers == s.workers[w := s'.workers[w]]
            && s'.main == s.main && |s'.jobs| == |s.jobs| && s'.collected == s.collected
            && 4 * |s'.input| + Effort()(s'.workers[w]) < 4 * |s.input| + Effort()(s.workers[w])
  {
  }

  lemma MainUnmoved(c: Config, s: State, s': State)
    requires s'.main == s.main && |s'.jobs| == |s.jobs| && |s'.workers| == |s.workers|
    requires s'.collected == s.collected
    ensures MainLeft(c, s') == MainLeft(c, s)
  {
  }

  lemma MainShrinksMeasure(c: Config, s: State)
    requires Shape(c, s) && Enabled(c, s, MainStep)
    ensures Measure(c, MainNext(c, s)) < Measure(c, s)
  {
    SumAppend(s.workers, Waiting, Effort());
  }

  lemma StepShrinksMeasure(c: Config, s: State, a: Action)
    requires Inv(c, s) && Enabled(c, s, a)
    ensures a.Sigint? ==> Measure(c, Next(c, s, a)) == Measure(c, s)
    ensures !a.Sigint? ==> Measure(c, Next(c, s, a)) < Measure(c, s)
  {
    match a
    case WorkerStep(w, code) =>
      WorkerShrinksMeasure(c, s, w, code);
    case MainStep =>
      MainShrinksMeasure(c, s);
    case Sigint =>
  }

  /** Starting from `s`, the actions `as` can happen in this order. */
  ghost predicate Runs(c: Config, s: State, acts: seq<Action>)
    decreases |acts|
  {
    acts == [] || (Enabled(c, s, acts[0]) && Runs(c, Next(c, s, acts[0]), acts[1..]))
  }

  ghost function Exec(c: Config, s: State, acts: seq<Action>): State
    requires Runs(c, s, acts)
    decreases |acts|
  {
    if acts == [] then s else Exec(c, Next(c, s, acts[0]), acts[1..])
  }

  ghost predicate Reachable(c: Config, s: State) {
    exists acts: seq<Action> :: Runs(c, Init(), acts) && Exec(c, Init(), acts) == s
  }

  lemma {:induction false} ExtendRun(c: Config, s: State, acts: seq<Action>, a: Action)
    requires Runs(c, s, acts) && Enabled(c, Exec(c, s, acts), a)
    ensures Runs(c, s, acts + [a]) && Exec(c, s, acts + [a]) == Next(c, Exec(c, s, acts), a)
    decreases |acts|
  {
    if acts == [] {
      assert Runs(c, Next(c, s, a), []);
    } else {
      ExtendRun(c, Next(c, s, acts[0]), acts[1..], a);
      assert (acts + [a])[1..] == acts[1..] + [a];
    }
  }

  lemma ReachableNext(c: Config, s: State, a: Action)
    requires Reachable(c, s) && Enabled(c, s, a)
    ensures Reachable(c, Next(c, s, a))
  {
    var acts: seq<Action> :| Runs(c, Init(), acts) && Exec(c, Init(), acts) == s;
    ExtendRun(c, Init(), acts, a);
  }

  /** How many actions of main and the workers a run has. */
  function Steps(acts: seq<Action>): nat {
    if acts == [] then 0 else (if acts[0].Sigint? then 0 else 1) + Steps(acts[1..])
  }

  lemma {:induction false} RunKeepsInv(c: Config, s: State, acts: seq<Action>)
    requires Inv(c, s) && Runs(c, s, acts)
    ensures Inv(c, Exec(c, s, acts))
    ensures Measure(c, Exec(c, s, acts)) + Steps(acts) <= Measure(c, s)
    decreases |acts|
  {
    if acts != [] {
      NextKeepsInv(c, s, acts[0]);
      StepShrinksMeasure(c, s, acts[0]);
      RunKeepsInv(c, Next(c, s, acts[0]), acts[1..]);
    }
  }

  lemma ReachableInv(c: Config, s: State)
    requires Reachable(c, s)
    ensures Inv(c, s)
  {
    var acts :| Runs(c, Init(), acts) && Exec(c, Init(), acts) == s;
    InitInv(c);
    RunKeepsInv(c, Init(), acts);
  }

  lemma ReachableAfter(c: Config, s: State, a: Action)
    requires Reachable(c, s) && Enabled(c, s, a)
    ensures Reachable(c, Next(c, s, a))
    ensures 0 <= Measure(c, Next(c, s, a)) && Measure(c, Next(c, s, a)) <= Measure(c, s)
    ensures !a.Sigint? ==> Measure(c, Next(c, s, a)) < Measure(c, s)
  {
    ReachableInv(c, s);
    ReachableNext(c, s, a);
    ReachableInv(c, Next(c, s, a));
    StepShrinksMeasure(c, s, a);
    MeasureNonNegative(c, Next(c, s, a));
  }

  /** No interleaving has more than 6n + 7P + 5 actions of main and the workers, whenever interrupts arrive. */
  lemma EveryRunIsBounded(c: Config, acts: seq<Action>)
    requires Runs(c, Init(), acts)
    ensures Steps(acts) <= 6 * |c.skips| + 7 * c.processors + 5
  {
    InitInv(c);
    RunKeepsInv(c, Init(), acts);
    MeasureNonNegative(c, Exec(c, Init(), acts));
  }

  // ----- deadlock -----

  /** Main or some worker can act. */
  ghost predicate CanStep(c: Config, s: State) {
    MainReady(c, s) || exists w: nat :: WorkerReady(s, w)
  }

  lemma AlwaysInRange(c: Config, s: State)
    requires Inv(c, s)
    ensures InRange(s)
  {
    forall w | 0 <= w < |s.workers|
      ensures !s.workers[w].Waiting? ==> s.workers[w].job < |s.jobs|
    {
      assert HandOk(c, s.jobs, s.ran, s.workers[w]);
    }
    forall k | 0 <= k < |s.output|
      ensures s.output[k] < |s.jobs|
    {
      assert Settled(c, s.jobs, s.ran, s.output[k]);
    }
  }

  lemma StuckWorkers(c: Config, s: State)
    requires Inv(c, s) && forall w: nat :: !WorkerReady(s, w)
    ensures Sum(s.workers, Busy()) == Sum(s.workers, TookSentinel(|c.skips|))
    ensures s.input != [] ==> Sum(s.workers, Busy()) == |s.workers|
    ensures forall k :: 0 <= k < |s.workers| && !s.workers[k].Exited? ==> Sum(s.workers, Busy()) < |s.workers|
  {
    forall k | 0 <= k < |s.workers|
      ensures Busy()(s.workers[k]) == TookSentinel(|c.skips|)(s.workers[k])
      ensures !s.workers[k].Exited? ==> s.workers[k].Waiting? && s.input == []
    {
      assert !WorkerReady(s, k) && HandOk(c, s.jobs, s.ran, s.workers[k]);
    }
    SumPointwise(s.workers, Busy(), TookSentinel(|c.skips|));
    SumPointwise(s.workers, TookSentinel(|c.skips|), Busy());
    if s.input != [] {
      SumOnes(s.workers, Busy());
    }
    forall k | 0 <= k < |s.workers| && !s.workers[k].Exited?
      ensures Sum(s.workers, Busy()) < |s.workers|
    {
      SumBelowLength(s.workers, k, Busy());
    }
  }

  /** With at least one worker, or with no work, the dispatcher is never stuck before it has finished. */
  lemma Progress(c: Config, s: State)
    requires Inv(c, s) && (c.processors >= 1 || c.skips == [])
    ensures CanStep(c, s) || s.main.Finished?
  {
    if !CanStep(c, s) && !s.main.Finished? {
      assert forall w: nat :: !WorkerReady(s, w);
      StuckWorkers(c, s);
      assert false;
    }
  }

  lemma {:induction false} RunToRest(c: Config, s: State) returns (acts: seq<Action>)
    requires Inv(c, s)
    ensures Runs(c, s, acts) && !CanStep(c, Exec(c, s, acts))
    decreases Measure(c, s)
  {
    if CanStep(c, s) {
      AlwaysInRange(c, s);
      var a;
      if MainReady(c, s) {
        a := MainStep;
      } else {
        var w: nat :| WorkerReady(s, w);
        a := WorkerStep(w, 0);
      }
      NextKeepsInv(c, s, a);
      StepShrinksMeasure(c, s, a);
      MeasureNonNegative(c, Next(c, s, a));
      var rest := RunToRest(c, Next(c, s, a));
      acts := [a] + rest;
      assert acts[1..] == rest;
    } else {
      acts := [];
    }
  }

  ghost predicate NobodyHome(s: State) {
    s.workers == [] && s.output == [] && s.collected == [] && !s.main.Joining? && !s.main.Finished?
  }

  lemma {:induction false} NoWorkersNoResults(c: Config, s: State, acts: seq<Action>)
    requires c.processors == 0 && c.skips != [] && NobodyHome(s) && Runs(c, s, acts)
    ensures NobodyHome(Exec(c, s, acts))
    decreases |acts|
  {
    if acts != [] {
      NoWorkersNoResults(c, Next(c, s, acts[0]), acts[1..]);
    }
  }

  /** Deadlock freedom, exactly: work with no worker thread to do it is the one configuration that hangs. */
  lemma DeadlockFreeIff(c: Config)
    ensures (forall s :: Reachable(c, s) ==> CanStep(c, s) || s.main.Finished?) <==>
            (c.processors >= 1 || c.skips == [])
  {
    if c.processors >= 1 || c.skips == [] {
      forall s | Reachable(c, s)
        ensures CanStep(c, s) || s.main.Finished?
      {
        ReachableInv(c, s);
        Progress(c, s);
      }
    } else {
      InitInv(c);
      var acts := RunToRest(c, Init());
      NoWorkersNoResults(c, Init(), acts);
      assert Reachable(c, Exec(c, Init(), acts));
    }
  }

  // ----- what every reachable state satisfies -----

  /** Each job is in exactly one place: a queue, one worker's hands, or main's results. */
  lemma JobInExactlyOnePlace(c: Config, s: State, r: nat)
    requires Reachable(c, s)
    ensures multiset(s.input)[r] + Sum(s.workers, Holds(r)) + multiset(s.output)[r] + multiset(s.collected)[r] ==
            if r < |s.jobs| then 1 else 0
  {
    ReachableInv(c, s);
    assert Places(s, r) == if r < |s.jobs| then 1 else 0;
  }

  /** Once a worker has returned, every real job has left the input queue; no two workers share a sentinel. */
  lemma ExitedAfterAllJobsTaken(c: Config, s: State, w: nat)
    requires Reachable(c, s) && w < |s.workers| && s.workers[w].Exited?
    ensures |c.skips| <= s.workers[w].job < |c.skips| + c.processors
    ensures forall k :: 0 <= k < |s.input| ==> s.input[k] >= |c.skips|
    ensures forall k :: 0 <= k < |s.workers| && k != w && !s.workers[k].Waiting? ==>
                        s.workers[k].job != s.workers[w].job
  {
    ReachableInv(c, s);
    assert HandOk(c, s.jobs, s.ran, s.workers[w]);
    SumAtLeast(s.workers, w, TookSentinel(|c.skips|));
    HeldAlone(s, w);
  }

  /** No job is executed twice, and a job that is to be skipped or was interrupted is never executed. */
  lemma RunsAtMostOnce(c: Config, s: State, w: nat)
    requires Reachable(c, s) && WorkerReady(s, w) && s.workers[w].Launched?
    ensures s.workers[w].job < |c.skips| && s.workers[w].job !in s.ran && !c.skips[s.workers[w].job]
    ensures s.workers[w].job < |s.jobs| && !s.jobs[s.workers[w].job].isBreak
  {
    ReachableInv(c, s);
    assert HandOk(c, s.jobs, s.ran, s.workers[w]);
    assert RecordOk(c, s.workers[w].job, s.jobs[s.workers[w].job], s.threadExit, s.ran);
  }

  // ----- what an interrupt stops -----

  /** The jobs that are running. */
  ghost function Running(workers: seq<Worker>): set<nat> {
    if workers == [] then {}
    else
      var last := workers[|workers| - 1];
      Running(workers[..|workers| - 1]) + if last.Launched? then {last.job} else {}
  }

  lemma {:induction false} RunningMember(workers: seq<Worker>, r: nat)
    ensures r in Running(workers) <==> exists w :: 0 <= w < |workers| && workers[w] == Launched(r)
  {
    if workers != [] {
      var n := |workers| - 1;
      RunningMember(workers[..n], r);
      if w :| 0 <= w < |workers| && workers[w] == Launched(r) {
        assert w < n ==> workers[..n][w] == workers[w];
      }
    }
  }

  lemma {:induction false} RunningAtMost(workers: seq<Worker>)
    ensures |Running(workers)| <= |workers|
  {
    if workers != [] {
      RunningAtMost(workers[..|workers| - 1]);
    }
  }

  /** A worker that changes to anything but a running job starts none. */
  lemma NoneLaunched(workers: seq<Worker>, w: nat, x: Worker)
    requires w < |workers| && !x.Launched?
    ensures Running(workers[w := x]) <= Running(workers)
  {
    forall r | r in Running(workers[w := x])
      ensures r in Running(workers)
    {
      RunningMember(workers[w := x], r);
      RunningMember(workers, r);
      var k :| 0 <= k < |workers| && workers[w := x][k] == Launched(r);
      assert k != w && workers[k] == Launched(r);
    }
  }

  lemma LookStartsNothing(s: State, w: nat, code: int)
    requires s.threadExit && WorkerReady(s, w) && InRange(s) && s.workers[w].Holding?
    ensures var s' := WorkerNext(s, w, code);
            s'.threadExit && s'.ran == s.ran && Running(s'.workers) <= Running(s.workers)
  {
    NoneLaunched(s.workers, w, if s.jobs[s.workers[w].job].isBreak then Exited(s.workers[w].job)
                               else Reporting(s.workers[w].job));
  }

  lemma FinishStartsNothing(s: State, w: nat, code: int)
    requires s.threadExit && WorkerReady(s, w) && InRange(s) && s.workers[w].Launched?
    ensures var s' := WorkerNext(s, w, code);
            && s'.threadExit && s'.ran == s.ran + {s.workers[w].job} && s.workers[w].job in Running(s.workers)
            && Running(s'.workers) <= Running(s.workers)
  {
    NoneLaunched(s.workers, w, Reporting(s.workers[w].job));
    RunningMember(s.workers, s.workers[w].job);
  }

  lemma WorkerStartsNothing(s: State, w: nat, code: int)
    requires s.threadExit && WorkerReady(s, w) && InRange(s)
    ensures var s' := WorkerNext(s, w, code);
            s'.threadExit && s.ran <= s'.ran && s'.ran + Running(s'.workers) <= s.ran + Running(s.workers)
  {
    match s.workers[w]
    case Waiting => NoneLaunched(s.workers, w, Holding(s.input[0]));
    case Holding(_) => LookStartsNothing(s, w, code);
    case Launched(_) => FinishStartsNothing(s, w, code);
    case Reporting(_) => NoneLaunched(s.workers, w, Waiting);
  }

  lemma MainStartsNothing(c: Config, s: State)
    requires MainReady(c, s) && InRange(s)
    ensures var s' := MainNext(c, s);
            s'.threadExit == s.threadExit && s'.ran == s.ran && Running(s'.workers) == Running(s.workers)
  {
    if s.main.Spawning? && |s.workers| < c.processors {
      assert (s.workers + [Waiting])[..|s.workers|] == s.workers;
    }
  }

  /** Once the flag is set no action starts a job. */
  lemma NothingStarts(c: Config, s: State, a: Action)
    requires s.threadExit && Enabled(c, s, a)
    ensures Next(c, s, a).threadExit && s.ran <= Next(c, s, a).ran
    ensures Next(c, s, a).ran + Running(Next(c, s, a).workers) <= s.ran + Running(s.workers)
  {
    match a
    case WorkerStep(w, code) => WorkerStartsNothing(s, w, code);
    case MainStep => MainStartsNothing(c, s);
    case Sigint =>
  }

  lemma {:induction false} NothingStartsLater(c: Config, s: State, acts: seq<Action>)
    requires s.threadExit && Runs(c, s, acts)
    ensures s.ran <= Exec(c, s, acts).ran <= s.ran + Running(s.workers)
    decreases |acts|
  {
    if acts != [] {
      NothingStarts(c, s, acts[0]);
      NothingStartsLater(c, Next(c, s, acts[0]), acts[1..]);
    }
  }

  /** After an interrupt the jobs that are running are finished, at most one for each worker, and no other is run. */
  lemma InterruptStops(c: Config, s: State, acts: seq<Action>)
    requires Reachable(c, s) && s.threadExit && Runs(c, s, acts)
    ensures forall r :: r in Exec(c, s, acts).ran ==>
              r in s.ran || exists w :: 0 <= w < |s.workers| && s.workers[w] == Launched(r)
    ensures s.ran <= Exec(c, s, acts).ran && |Exec(c, s, acts).ran - s.ran| <= c.processors
  {
    ReachableInv(c, s);
    NothingStartsLater(c, s, acts);
    RunningAtMost(s.workers);
    Within(Exec(c, s, acts).ran - s.ran, Running(s.workers));
    forall r | r in Exec(c, s, acts).ran
      ensures r in s.ran || exists w :: 0 <= w < |s.workers| && s.workers[w] == Launched(r)
    {
      RunningMember(s.workers, r);
    }
  }

  lemma {:induction false} RunsApart(c: Config, s: State, before: seq<Action>, after: seq<Action>)
    requires Runs(c, s, before + after)
    ensures Runs(c, s, before) && Runs(c, Exec(c, s, before), after)
    ensures Exec(c, s, before + after) == Exec(c, Exec(c, s, before), after)
    decreases |before|
  {
    if before == [] {
      assert before + after == after;
    } else {
      assert (before + after)[1..] == before[1..] + after;
      RunsApart(c, Next(c, s, before[0]), before[1..], after);
    }
  }

  /** In a run with an interrupt, the jobs run after it are among those that were running when it came. */
  lemma AfterInterrupt(c: Config, before: seq<Action>, after: seq<Action>, r: nat)
    requires Runs(c, Init(), before + ([Sigint] + after))
    ensures Runs(c, Init(), before)
    ensures r in Exec(c, Init(), before + ([Sigint] + after)).ran ==>
              var s := Exec(c, Init(), before);
              r in s.ran || exists w :: 0 <= w < |s.workers| && s.workers[w] == Launched(r)
  {
    RunsApart(c, Init(), before, [Sigint] + after);
    var s := Exec(c, Init(), before);
    assert ([Sigint] + after)[1..] == after;
    ReachableAfter(c, s, Sigint);
    InterruptStops(c, Next(c, s, Sigint), after);
  }

  lemma {:induction false} Within(small: set<nat>, big: set<nat>)
    requires small <= big
    ensures |small| <= |big|
    decreases |small|
  {
    if x :| x in small {
      Within(small - {x}, big - {x});
    }
  }

  /** The result that an action puts on the output queue. */
  ghost function Reported(s: State, a: Action): seq<nat> {
    if a.WorkerStep? && a.w < |s.workers| && s.workers[a.w].Reporting? then [s.workers[a.w].job] else []
  }

  /** Results are collected in the order in which the workers report them. */
  lemma ResultsInOrder(c: Config, s: State, a: Action)
    requires Enabled(c, s, a)
    ensures Next(c, s, a).collected + Next(c, s, a).output == s.collected + s.output + Reported(s, a)
  {
    match a
    case WorkerStep(w, code) =>
      if s.workers[w].Reporting? {
        assert s.collected + (s.output + Reported(s, a)) == s.collected + s.output + Reported(s, a);
      }
    case MainStep =>
      if s.main.Collecting? && |s.collected| < |c.skips| {
        assert s.collected + [s.output[0]] + s.output[1..] == s.collected + s.output;
      }
    case Sigint =>
  }

  // ----- the summary -----

  /** Of the first `k` jobs in dispatch order, how many have outcome `o`. */
  function CountOutcome(jobs: seq<Job>, k: nat, o: Outcome): (count: nat)
    requires k <= |jobs|
    ensures count <= k
  {
    if k == 0 then 0 else CountOutcome(jobs, k - 1, o) + if Classify(jobs[k - 1]) == o then 1 else 0
  }

  ghost function OutcomeIs(jobs: seq<Job>, o: Outcome): int -> nat {
    (r: int) => if 0 <= r < |jobs| && Classify(jobs[r]) == o then 1 else 0
  }

  lemma {:induction false} TallyCounts(jobs: seq<Job>, refs: seq<nat>)
    requires forall k :: 0 <= k < |refs| ==> refs[k] < |jobs|
    ensures var t := TallyOf(jobs, refs);
            && t.passed == Sum(refs, OutcomeIs(jobs, Passed)) && t.failed == Sum(refs, OutcomeIs(jobs, Failed))
            && t.skipped == Sum(refs, OutcomeIs(jobs, Skipped)) && t.crashed == Sum(refs, OutcomeIs(jobs, Crashed))
            && t.valgrind == Sum(refs, OutcomeIs(jobs, ValgrindError))
  {
    if refs != [] {
      TallyCounts(jobs, refs[..|refs| - 1]);
    }
  }

  /** `refs` lists 0 .. n-1, each once, in any order. */
  ghost predicate Lists(refs: seq<nat>, n: nat) {
    |refs| == n && forall r: nat :: multiset(refs)[r] == if r < n then 1 else 0
  }

  lemma ListsWithout(refs: seq<nat>, n: nat, k: nat)
    requires Lists(refs, n) && k < n && refs[k] == n - 1
    ensures Lists(Without(refs, k), n - 1)
  {
    var rest: seq<nat> := Without(refs, k);
    MultisetWithout(refs, k);
    forall r: nat
      ensures multiset(rest)[r] == if r < n - 1 then 1 else 0
    {
      assert multiset(refs)[r] == multiset(rest)[r] + multiset([refs[k]])[r];
    }
  }

  lemma ListsEach(refs: seq<nat>, n: nat, r: nat) returns (k: nat)
    requires Lists(refs, n) && r < n
    ensures k < n && refs[k] == r
  {
    assert multiset(refs)[r] == 1;
    assert r in refs;
    k :| 0 <= k < n && refs[k] == r;
  }

  /** A sum over a list of 0 .. n-1 in any order is the sum in increasing order. */
  lemma {:induction false} OrderIrrelevant(jobs: seq<Job>, refs: seq<nat>, n: nat, o: Outcome)
    requires n <= |jobs| && Lists(refs, n)
    ensures Sum(refs, OutcomeIs(jobs, o)) == CountOutcome(jobs, n, o)
    decreases n
  {
    if n > 0 {
      var k := ListsEach(refs, n, n - 1);
      SumWithout(refs, k, OutcomeIs(jobs, o));
      ListsWithout(refs, n, k);
      OrderIrrelevant(jobs, Without(refs, k), n - 1, o);
    }
  }

  lemma {:induction false} OutcomesPartition(jobs: seq<Job>, k: nat)
    requires k <= |jobs|
    ensures CountOutcome(jobs, k, Passed) + CountOutcome(jobs, k, Failed) + CountOutcome(jobs, k, Skipped) +
            CountOutcome(jobs, k, Crashed) + CountOutcome(jobs, k, ValgrindError) +
            CountOutcome(jobs, k, Interrupted) == k
  {
    if k > 0 {
      OutcomesPartition(jobs, k - 1);
    }
  }

  lemma {:induction false} AllGoodIff(jobs: seq<Job>, k: nat)
    requires k <= |jobs|
    ensures CountOutcome(jobs, k, Passed) + CountOutcome(jobs, k, Skipped) <= k
    ensures CountOutcome(jobs, k, Passed) + CountOutcome(jobs, k, Skipped) == k <==>
            forall r :: 0 <= r < k ==> Classify(jobs[r]) == Passed || Classify(jobs[r]) == Skipped
  {
    if k > 0 {
      AllGoodIff(jobs, k - 1);
    }
  }

  /** `t` counts the jobs' final records in dispatch order, whatever order they were run and collected in. */
  ghost predicate TallyIsSequential(c: Config, jobs: seq<Job>, t: Tally) {
    var n := |c.skips|;
    && n <= |jobs|
    && t.passed == CountOutcome(jobs, n, Passed) && t.failed == CountOutcome(jobs, n, Failed)
    && t.skipped == CountOutcome(jobs, n, Skipped) && t.crashed == CountOutcome(jobs, n, Crashed)
    && t.valgrind == CountOutcome(jobs, n, ValgrindError)
  }

  /** A finished run left nothing behind: both queues are empty and every worker has returned. */
  ghost predicate CleanFinish(c: Config, s: State) {
    && s.main.Finished? && s.input == [] && s.output == [] && |s.workers| == c.processors
    && (forall w :: 0 <= w < |s.workers| ==> s.workers[w].Exited?)
    && Lists(s.collected, |c.skips|)
  }

  lemma FinishedIsClean(c: Config, s: State)
    requires Inv(c, s) && s.main.Finished?
    ensures CleanFinish(c, s)
  {
    SumOnes(s.workers, Busy());
    assert s.input == [] && s.output == [];
    forall r: nat
      ensures multiset(s.collected)[r] == if r < |c.skips| then 1 else 0
    {
      assert Places(s, r) == if r < |s.jobs| then 1 else 0;
      if r in s.collected {
        var k :| 0 <= k < |s.collected| && s.collected[k] == r;
        assert Settled(c, s.jobs, s.ran, s.collected[k]);
      } else if r < |c.skips| {
        if Sum(s.workers, Holds(r)) > 0 {
          forall k | 0 <= k < |s.workers|
            ensures Holds(r)(s.workers[k]) == 0
          {
            assert HandOk(c, s.jobs, s.ran, s.workers[k]);
          }
          SumZeros(s.workers, Holds(r));
        }
      }
    }
  }

  /**
   * The end of every run: the counters are those of the jobs in dispatch order, each job counted as run was
   * run, only an interrupt leaves jobs uncounted, and the exit code is 0 exactly when every job passed or
   * was skipped.
   */
  lemma FinalSummary(c: Config, s: State)
    requires Reachable(c, s) && s.main.Finished?
    ensures CleanFinish(c, s) && TallyIsSequential(c, s.jobs, s.tally)
    ensures var t, n := s.tally, |c.skips|;
            t.passed + t.failed + t.skipped + t.crashed + t.valgrind + CountOutcome(s.jobs, n, Interrupted) == n
    ensures forall r :: 0 <= r < |c.skips| ==>
              && (r in s.ran <==> !s.jobs[r].isBreak && !c.skips[r])
              && (Classify(s.jobs[r]) == Interrupted ==> s.threadExit)
              && (Classify(s.jobs[r]) == Skipped ==> c.skips[r])
    ensures ExitCode(|c.skips|, s.tally) == 0 <==>
            forall r :: 0 <= r < |c.skips| ==> Classify(s.jobs[r]) in {Passed, Skipped}
  {
    ReachableInv(c, s);
    FinishedIsClean(c, s);
    FinishedTally(c, s);
    OutcomesPartition(s.jobs, |c.skips|);
    AllGoodIff(s.jobs, |c.skips|);
    forall r | 0 <= r < |c.skips|
      ensures RecordOk(c, r, s.jobs[r], s.threadExit, s.ran) && Settled(c, s.jobs, s.ran, r)
    {
      var k := ListsEach(s.collected, |c.skips|, r);
    }
  }

  // ----- what the processes returned -----

  /** The code that each job's process returned in a run, by job. */
  ghost function Codes(c: Config, s: State, acts: seq<Action>): map<nat, int>
    requires Runs(c, s, acts)
    decreases |acts|
  {
    if acts == [] then map[]
    else
      var later := Codes(c, Next(c, s, acts[0]), acts[1..]);
      match acts[0]
      case WorkerStep(w, code) => if s.workers[w].Launched? then later[s.workers[w].job := code] else later
      case _ => later
  }

  /** What one action adds to the jobs that have been run. */
  ghost function RunBy(s: State, a: Action): set<nat> {
    if a.WorkerStep? && a.w < |s.workers| && s.workers[a.w].Launched? then {s.workers[a.w].job} else {}
  }

  lemma WorkerRecords(c: Config, s: State, w: nat, code: int)
    requires Records(c, s) && WorkerReady(s, w) && InRange(s)
    ensures var s' := WorkerNext(s, w, code);
            && s'.ran == s.ran + RunBy(s, WorkerStep(w, code)) && |s'.jobs| == |s.jobs|
            && forall r :: r in s.ran ==> r < |s.jobs| && s'.jobs[r].returncode == s.jobs[r].returncode
  {
    assert HandOk(c, s.jobs, s.ran, s.workers[w]);
  }

  lemma RunRecorded(c: Config, s: State, w: nat, code: int)
    requires Records(c, s) && WorkerReady(s, w) && InRange(s) && s.workers[w].Launched?
    ensures var j := s.workers[w].job;
            j !in s.ran && j < |s.jobs| && WorkerNext(s, w, code).jobs[j].returncode == code
  {
    assert HandOk(c, s.jobs, s.ran, s.workers[w]);
  }

  /** An action keeps the codes of the jobs that have been run. */
  lemma ActionRecords(c: Config, s: State, a: Action)
    requires Records(c, s) && Enabled(c, s, a)
    ensures var s' := Next(c, s, a);
            && s'.ran == s.ran + RunBy(s, a) && |s'.jobs| >= |s.jobs|
            && forall r :: r in s.ran ==> r < |s.jobs| && s'.jobs[r].returncode == s.jobs[r].returncode
  {
    match a
    case WorkerStep(w, code) => WorkerRecords(c, s, w, code);
    case MainStep =>
    case Sigint =>
  }

  /** The jobs that a run adds to those that were run are the ones with a code, and each record has its code. */
  lemma {:induction false} RunRecords(c: Config, s: State, acts: seq<Action>)
    requires Inv(c, s) && Runs(c, s, acts)
    ensures var s', codes := Exec(c, s, acts), Codes(c, s, acts);
            && s'.ran == s.ran + codes.Keys && s.ran !! codes.Keys && |s'.jobs| >= |s.jobs|
            && (forall r :: r in s'.ran ==> r < |s'.jobs|)
            && (forall r :: r in codes ==> s'.jobs[r].returncode == codes[r])
            && (forall r :: r in s.ran ==> r < |s.jobs| && s'.jobs[r].returncode == s.jobs[r].returncode)
    decreases |acts|
  {
    if acts != [] {
      var a := acts[0];
      NextKeepsInv(c, s, a);
      ActionRecords(c, s, a);
      RunRecords(c, Next(c, s, a), acts[1..]);
      if RunBy(s, a) != {} {
        RunRecorded(c, s, a.w, a.code);
      }
    }
  }

  /** In every reachable state a job has been run exactly if its process returned, and its record has that code. */
  lemma RecordedCodes(c: Config, acts: seq<Action>, r: nat)
    requires Runs(c, Init(), acts)
    ensures var s, codes := Exec(c, Init(), acts), Codes(c, Init(), acts);
            && (r in s.ran <==> r in codes)
            && (r in codes ==> r < |c.skips| && r < |s.jobs| && s.jobs[r].returncode == codes[r])
  {
    InitInv(c);
    RunRecords(c, Init(), acts);
    RunKeepsInv(c, Init(), acts);
    var s := Exec(c, Init(), acts);
    if r in s.ran {
      assert RecordOk(c, r, s.jobs[r], s.threadExit, s.ran);
    }
  }

  /** Whether job `r` is in the set tells whether it has the outcome. */
  ghost predicate Tells(jobs: seq<Job>, o: Outcome, rs: set<nat>, r: nat)
    requires r < |jobs|
  {
    r in rs <==> Classify(jobs[r]) == o
  }

  lemma {:induction false} CountIsSet(jobs: seq<Job>, k: nat, o: Outcome, rs: set<nat>)
    requires k <= |jobs| && (forall r :: r in rs ==> r < k)
    requires forall r: nat :: r < k ==> Tells(jobs, o, rs, r)
    ensures CountOutcome(jobs, k, o) == |rs|
  {
    if k == 0 {
      assert rs == {};
    } else {
      var rest := rs - {k - 1};
      forall r: nat | r < k - 1
        ensures Tells(jobs, o, rest, r)
      {
        assert Tells(jobs, o, rs, r);
      }
      assert Tells(jobs, o, rs, k - 1);
      CountIsSet(jobs, k - 1, o, rest);
    }
  }

  /** Of the first `n` jobs, those whose processes returned `code`. */
  ghost function Returned(n: nat, codes: map<nat, int>, code: int): set<nat> {
    set r | r in codes && r < n && codes[r] == code
  }

  ghost function ReturnedOther(n: nat, codes: map<nat, int>): set<nat> {
    set r | r in codes && r < n && codes[r] !in {0, 1, 2}
  }

  /** Those that were neither run nor interrupted. */
  ghost function LeftAlone(n: nat, codes: map<nat, int>, jobs: seq<Job>): set<nat>
    requires n <= |jobs|
  {
    set r: nat | r < n && r !in codes && !jobs[r].isBreak
  }

  ghost predicate ByCode(jobs: seq<Job>, codes: map<nat, int>, r: nat)
    requires r < |jobs|
  {
    Classify(jobs[r]) ==
    if r in codes then
      if codes[r] == 0 then Passed else if codes[r] == 1 then Failed else if codes[r] == 2 then ValgrindError
      else Crashed
    else if jobs[r].isBreak then Interrupted else Skipped
  }

  /** How a finished job is classified, from the code that its process returned. */
  lemma ClassifiedByCode(c: Config, acts: seq<Action>, r: nat)
    requires Runs(c, Init(), acts) && Exec(c, Init(), acts).main.Finished? && r < |c.skips|
    ensures var s, codes := Exec(c, Init(), acts), Codes(c, Init(), acts);
            && |c.skips| <= |s.jobs| && ByCode(s.jobs, codes, r)
            && (r !in codes && !s.jobs[r].isBreak ==> c.skips[r])
  {
    var s := Exec(c, Init(), acts);
    assert Reachable(c, s);
    FinalSummary(c, s);
    RecordedCodes(c, acts, r);
    ReachableInv(c, s);
    assert RecordOk(c, r, s.jobs[r], s.threadExit, s.ran);
  }

  /** The counters by the codes of the processes: 0, 1, 2 and anything else. */
  ghost predicate CountsByCode(n: nat, jobs: seq<Job>, codes: map<nat, int>, t: Tally)
    requires n <= |jobs|
  {
    && t.passed == |Returned(n, codes, 0)| && t.failed == |Returned(n, codes, 1)|
    && t.valgrind == |Returned(n, codes, 2)| && t.crashed == |ReturnedOther(n, codes)|
    && t.skipped == |LeftAlone(n, codes, jobs)|
  }

  lemma TallyByCode(c: Config, jobs: seq<Job>, codes: map<nat, int>, t: Tally)
    requires TallyIsSequential(c, jobs, t) && forall r: nat :: r < |c.skips| ==> ByCode(jobs, codes, r)
    ensures CountsByCode(|c.skips|, jobs, codes, t)
  {
    var n := |c.skips|;
    forall r: nat | r < n
      ensures Tells(jobs, Passed, Returned(n, codes, 0), r) && Tells(jobs, Failed, Returned(n, codes, 1), r)
      ensures Tells(jobs, ValgrindError, Returned(n, codes, 2), r) && Tells(jobs, Crashed, ReturnedOther(n, codes), r)
      ensures Tells(jobs, Skipped, LeftAlone(n, codes, jobs), r)
    {
      assert ByCode(jobs, codes, r);
    }
    CountIsSet(jobs, n, Passed, Returned(n, codes, 0));
    CountIsSet(jobs, n, Failed, Returned(n, codes, 1));
    CountIsSet(jobs, n, ValgrindError, Returned(n, codes, 2));
    CountIsSet(jobs, n, Crashed, ReturnedOther(n, codes));
    CountIsSet(jobs, n, Skipped, LeftAlone(n, codes, jobs));
  }

  /** Every job was run and returned 0, or was neither run nor interrupted. */
  ghost predicate AllGood(n: nat, jobs: seq<Job>, codes: map<nat, int>)
    requires n <= |jobs|
  {
    forall r: nat :: r < n ==> if r in codes then codes[r] == 0 else !jobs[r].isBreak
  }

  lemma GoodByCode(n: nat, jobs: seq<Job>, codes: map<nat, int>)
    requires n <= |jobs| && forall r: nat :: r < n ==> ByCode(jobs, codes, r)
    ensures AllGood(n, jobs, codes) <==> forall r :: 0 <= r < n ==> Classify(jobs[r]) in {Passed, Skipped}
  {
    forall r: nat | r < n
      ensures (if r in codes then codes[r] == 0 else !jobs[r].isBreak) <==> Classify(jobs[r]) in {Passed, Skipped}
    {
      assert ByCode(jobs, codes, r);
    }
  }

  /**
   * The end of every run, from what the processes returned: each counter counts the jobs that returned its code,
   * and the exit code is 0 exactly if every job either was run and returned 0 or was neither run nor interrupted,
   * which only jobs that are to be skipped are.
   */
  lemma SummaryByCodes(c: Config, acts: seq<Action>)
    requires Runs(c, Init(), acts) && Exec(c, Init(), acts).main.Finished?
    ensures var s, codes, n := Exec(c, Init(), acts), Codes(c, Init(), acts), |c.skips|;
            && n <= |s.jobs| && CountsByCode(n, s.jobs, codes, s.tally)
            && (ExitCode(n, s.tally) == 0 <==> AllGood(n, s.jobs, codes))
            && forall r: nat :: r < n && r !in codes && !s.jobs[r].isBreak ==> c.skips[r]
  {
    var s, codes, n := Exec(c, Init(), acts), Codes(c, Init(), acts), |c.skips|;
    assert Reachable(c, s);
    FinalSummary(c, s);
    forall r: nat | r < n
      ensures ByCode(s.jobs, codes, r) && (r !in codes && !s.jobs[r].isBreak ==> c.skips[r])
    {
      ClassifiedByCode(c, acts, r);
    }
    TallyByCode(c, s.jobs, codes, s.tally);
    GoodByCode(n, s.jobs, codes);
  }

  lemma {:induction false} NoneInterrupted(jobs: seq<Job>, k: nat)
    requires k <= |jobs|
    ensures (forall r :: 0 <= r < k ==> Classify(jobs[r]) != Interrupted) ==> CountOutcome(jobs, k, Interrupted) == 0
  {
    if k > 0 {
      NoneInterrupted(jobs, k - 1);
    }
  }

  /** Everything that a finished run says about its state. */
  lemma RunEnds(c: Config, acts: seq<Action>, s: State)
    requires Runs(c, Init(), acts) && s == Exec(c, Init(), acts) && s.main.Finished?
    ensures CleanFinish(c, s) && TallyIsSequential(c, s.jobs, s.tally)
    ensures CountsByCode(|c.skips|, s.jobs, Codes(c, Init(), acts), s.tally)
    ensures s.tally.passed + s.tally.skipped == |c.skips| <==> AllGood(|c.skips|, s.jobs, Codes(c, Init(), acts))
    ensures var t := s.tally;
            !s.threadExit ==> t.passed + t.failed + t.skipped + t.crashed + t.valgrind == |c.skips|
  {
    assert Reachable(c, s);
    FinalSummary(c, s);
    SummaryByCodes(c, acts);
    NoneInterrupted(s.jobs, |c.skips|);
  }

  lemma FinishedTally(c: Config, s: State)
    requires Inv(c, s) && s.main.Finished?
    ensures TallyIsSequential(c, s.jobs, s.tally)
  {
    FinishedIsClean(c, s);
    forall k | 0 <= k < |s.collected|
      ensures s.collected[k] < |s.jobs|
    {
      assert Settled(c, s.jobs, s.ran, s.collected[k]);
    }
    TallyCounts(s.jobs, s.collected);
    forall o: Outcome {
      OrderIrrelevant(s.jobs, s.collected, |c.skips|, o);
    }
  }

  lemma ReachableCanStep(c: Config, s: State)
    requires Reachable(c, s) && !s.main.Finished? && (c.processors >= 1 || c.skips == [])
    ensures CanStep(c, s) && InRange(s)
  {
    ReachableInv(c, s);
    Progress(c, s);
    AlwaysInRange(c, s);
  }

  // ----- the program -----

  class TestRunner {
    const c: Config
    var jobs: seq<Job>
    var inputQueue: seq<nat>
    var outputQueue: seq<nat>
    var workers: seq<Worker>
    var main: Main
    var threadExit: bool
    var passed: nat
    var failed: nat
    var skipped: nat
    var crashed: nat
    var valgrind: nat
    var collected: seq<nat>  // its length is the index of main's collecting loop
    ghost var ran: set<nat>

    ghost function Snapshot(): State
      reads this
    {
      State(jobs, inputQueue, outputQueue, workers, main, threadExit,
            Tally(passed, failed, skipped, crashed, valgrind), collected, ran)
    }

    predicate WorkerCanRun(w: nat)
      requires w < |workers|
      reads this
      ensures WorkerCanRun(w) <==> WorkerReady(Snapshot(), w)
    {
      !workers[w].Exited? && (workers[w].Waiting? ==> inputQueue != [])
    }

    predicate MainCanRun()
      reads this
      ensures MainCanRun() <==> MainReady(c, Snapshot())
    {
      match main
      case Finished => false
      case Collecting => |collected| < |c.skips| ==> outputQueue != []
      case Joining(next) => next < |workers| ==> workers[next].Exited?
      case _ => true
    }

    constructor (c: Config)
      ensures this.c == c && Snapshot() == Init()
    {
      this.c := c;
      jobs, inputQueue, outputQueue, workers, main, threadExit := [], [], [], [], Spawning, false;
      passed, failed, skipped, crashed, valgrind := 0, 0, 0, 0, 0;
      collected, ran := [], {};
    }

    method SigintHook()
      modifies this`threadExit
      ensures threadExit
    {
      threadExit := true;
    }

    /** The next atomic action of worker `w`; a job it executes returns `code`. */
    method WorkerRun(w: nat, code: int)
      requires Enabled(c, Snapshot(), WorkerStep(w, code))
      modifies this
      ensures Snapshot() == WorkerNext(old(Snapshot()), w, code)
    {
      match workers[w]
      case Waiting =>
        workers := workers[w := Holding(inputQueue[0])];
        inputQueue := inputQueue[1..];
      case Holding(j) =>
        if jobs[j].isBreak {
          workers := workers[w := Exited(j)];
        } else if threadExit {
          jobs := jobs[j := jobs[j].(isBreak := true)];
          workers := workers[w := Reporting(j)];
        } else if jobs[j].isSkip {
          workers := workers[w := Reporting(j)];
        } else {
          workers := workers[w := Launched(j)];
        }
      case Launched(j) =>
        jobs := jobs[j := jobs[j].(returncode := code)];
        ran := ran + {j};
        workers := workers[w := Reporting(j)];
      case Reporting(j) =>
        outputQueue := outputQueue + [j];
        workers := workers[w := Waiting];
    }

    method Put(job: Job)
      modifies this`inputQueue, this`jobs
      ensures Snapshot() == PutJob(old(Snapshot()), job)
    {
      inputQueue := inputQueue + [|jobs|];
      jobs := jobs + [job];
    }

    method Count(job: Job)
      modifies this`passed, this`failed, this`skipped, this`crashed, this`valgrind
      ensures Snapshot() == old(Snapshot()).(tally := Bump(old(Snapshot()).tally, Classify(job)))
    {
      if job.isBreak {
        return;
      }
      if job.isSkip {
        skipped := skipped + 1;
      } else if job.returncode == 0 {
        passed := passed + 1;
      } else if job.returncode == 1 {
        failed := failed + 1;
      } else if job.returncode == 2 {
        valgrind := valgrind + 1;
      } else {
        crashed := crashed + 1;
      }
    }

    /** The next atomic action of the main thread. */
    method MainRun()
      requires Enabled(c, Snapshot(), MainStep)
      modifies this
      ensures Snapshot() == MainNext(c, old(Snapshot()))
    {
      match main
      case Spawning =>
        if |workers| < c.processors {
          workers := workers + [Waiting];
        } else {
          main := Dispatching;
        }
      case Dispatching =>
        if |jobs| < |c.skips| {
          Put(Job(false, c.skips[|jobs|], 0));
        } else {
          main := Stopping;
        }
      case Stopping =>
        if |jobs| < |c.skips| + c.processors {
          Put(Job(true, false, 0));
        } else {
          main := Collecting;
        }
      case Collecting =>
        if |collected| < |c.skips| {
          var j := outputQueue[0];
          outputQueue := outputQueue[1..];
          collected := collected + [j];
          Count(jobs[j]);
        } else {
          main := Joining(0);
        }
      case Joining(next) =>
        if next < |workers| {
          main := Joining(next + 1);
        } else {
          main := Finished;
        }
    }

    /** Lets the scheduler choose: main's next action, or that of any worker that can act. */
    method Schedule() returns (ghost a: Action)
      requires CanStep(c, Snapshot()) && InRange(Snapshot())
      modifies this
      ensures !a.Sigint? && Enabled(c, old(Snapshot()), a)
      ensures Snapshot() == Next(c, old(Snapshot()), a)
    {
      var turn: nat :| turn >= 0;
      var code: int := *;
      if turn < |workers| && WorkerCanRun(turn) {
        a := WorkerStep(turn, code);
        WorkerRun(turn, code);
      } else if MainCanRun() {
        a := MainStep;
        MainRun();
      } else {
        ghost var w0: nat :| WorkerReady(Snapshot(), w0);
        assert w0 < |workers| && WorkerCanRun(w0);
        var w: nat :| w < |workers| && WorkerCanRun(w);
        assert w < |workers| && WorkerCanRun(w);
        a := WorkerStep(w, code);
        WorkerRun(w, code);
      }
    }

    /** Any schedule, with an interrupt possible before each step, until main has joined every worker. */
    method RunThreads() returns (ghost acts: seq<Action>)
      requires Snapshot() == Init() && (c.processors >= 1 || c.skips == [])
      modifies this
      ensures Runs(c, Init(), acts) && Exec(c, Init(), acts) == Snapshot() && main.Finished?
    {
      acts := [];
      ghost var s := Snapshot();
      while main != Finished
        invariant s == Snapshot() && Runs(c, Init(), acts) && Exec(c, Init(), acts) == s
        decreases Measure(c, s)
      {
        assert Reachable(c, s);
        if * {
          ReachableAfter(c, s, Sigint);
          ExtendRun(c, Init(), acts, Sigint);
          SigintHook();
          acts := acts + [Sigint];
          s := Snapshot();
        }
        ReachableCanStep(c, s);
        ghost var a := Schedule();
        ReachableAfter(c, s, a);
        ExtendRun(c, Init(), acts, a);
        acts := acts + [a];
        s := Snapshot();
      }
    }

    /** The whole run; `acts` is the schedule, and with it what the jobs' processes returned. */
    method RunTests() returns (rc: int, ghost acts: seq<Action>)
      requires Snapshot() == Init() && (c.processors >= 1 || c.skips == [])
      modifies this
      ensures Runs(c, Init(), acts) && Exec(c, Init(), acts) == Snapshot()
      ensures CleanFinish(c, Snapshot()) && TallyIsSequential(c, jobs, Snapshot().tally)
      ensures CountsByCode(|c.skips|, jobs, Codes(c, Init(), acts), Snapshot().tally)
      ensures !threadExit ==> passed + failed + skipped + crashed + valgrind == |c.skips|
      ensures rc == 0 || rc == 1
      ensures rc == 0 <==> AllGood(|c.skips|, jobs, Codes(c, Init(), acts))
    {
      acts := RunThreads();
      RunEnds(c, acts, Snapshot());
      rc := if passed + skipped == |c.skips| then 0 else 1;
    }
  }
}
