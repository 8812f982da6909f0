/** The protocol between a simulation thread, its asynchronous worker and threads that suspend the worker.

Every access to an atomic and every section under the worker's mutex is one step. A thread that waits for a
condition is one whose step changes nothing while the condition is false.
*/
module AsyncWorker {
  import opened Wrappers

  /** Where the worker goes once nobody blocks it any more. */
  datatype Goal = Begin | Continue | Synced(job: nat) | Terminate

  datatype Worker =
    | Idle
    | PreRun(goal: Goal)
    | Task
    | ReportProgress(delta: nat)
    | AddProgress(delta: nat)
    | EnterSync(job: nat)
    | SetRequest(job: nat)
    | AwaitRequest(job: nat)
    | CheckAlive(job: nat)
    | Terminated
    | LeaveTask
    | FinishTask
    | Exited

  /** What task code does next. */
  datatype Choice = Compute | Progress(delta: nat) | Sync | Return

  datatype Simulation =
    | Outside
    | CheckWorking
    | Refresh
    | Wait(time: nat)
    | CheckRequest
    | RefreshForJob
    | WaitForJob(time: nat)
    | RunJob
    | ClearRequest
    | TakeRest
    | WaitRest(time: nat)

  /** A thread that called suspend, with the number of resumes when it asked. */
  datatype Suspender = Asking(since: nat) | Held(since: nat)

  datatype Step =
    | Suspend(thread: nat)
    | Resume
    | Kill
    | SetRunning(running: bool)
    | Work(choice: Choice)
    | Simulate(time: nat)

  /** The flags of the worker, whether the simulation runs, and how often the worker was resumed. */
  datatype Flags = Flags(alive: bool, working: bool, blocked: bool, blockRequest: bool, running: bool, resumes: nat)

  /** Simulation time, the stored position of the worker and its pending progress. */
  datatype Clock = Clock(now: nat, threadPos: nat, progress: nat)

  /** The pending sync job, the number of jobs issued so far and the jobs that ran. */
  datatype Jobs = Jobs(request: Option<nat>, issued: nat, executed: multiset<nat>)

  datatype State = State(
    worker: Worker, sim: Simulation, suspenders: map<nat, Suspender>, flags: Flags, clock: Clock, jobs: Jobs)

  const INITIAL := State(Idle, Outside, map[], Flags(true, false, false, false, true, 0),
                         Clock(0, 0, 0), Jobs(None, 0, multiset{}))

  function WorkerNext(s: State, c: Choice): State {
    var f := s.flags;
    match s.worker
    case Idle => s.(worker := if !f.alive then Exited else if f.working then PreRun(Begin) else Idle)
    case PreRun(goal) =>
      if f.alive && f.blockRequest then s
      else s.(flags := f.(blocked := false), worker := if goal.Terminate? then Terminated else Task)
    case Task =>
      (match c
       case Compute => s
       case Progress(delta) => s.(worker := ReportProgress(delta))
       case Sync => s.(worker := EnterSync(s.jobs.issued), jobs := s.jobs.(issued := s.jobs.issued + 1))
       case Return => s.(worker := LeaveTask))
    case ReportProgress(delta) => s.(flags := f.(blocked := true), worker := AddProgress(delta))
    case AddProgress(delta) => s.(clock := s.clock.(progress := s.clock.progress + delta), worker := PreRun(Continue))
    case EnterSync(job) => s.(flags := f.(blocked := true), worker := SetRequest(job))
    case SetRequest(job) => s.(jobs := s.jobs.(request := Some(job)), worker := AwaitRequest(job))
    case AwaitRequest(job) => s.(worker := if s.jobs.request.None? then PreRun(Synced(job)) else CheckAlive(job))
    case CheckAlive(job) => s.(worker := if !f.alive || !f.running then PreRun(Terminate) else AwaitRequest(job))
    case Terminated => s.(flags := f.(alive := false), worker := LeaveTask)
    case LeaveTask => s.(flags := f.(blocked := true), worker := FinishTask)
    case FinishTask => s.(flags := f.(working := false), worker := Idle)
    case Exited => s
  }

  /** Take the pending progress and store where the worker stands. */
  function Refreshed(c: Clock): Clock {
    c.(progress := 0, threadPos := c.now + c.progress)
  }

  function Waited(c: Clock, t: nat): Clock {
    c.(now := c.now + t)
  }

  /** The simulation thread moves only while the simulation runs. The time a step takes is its own choice
  outside of tasks and while it runs a job of the worker; otherwise it waits for the progress it took. */
  function SimulationNext(s: State, time: nat): State {
    if !s.flags.running then s else
      var c := s.clock;
      match s.sim
      case Outside =>
        if time > 0 then s.(clock := c.(now := c.now + time))
        else s.(flags := s.flags.(working := true), sim := CheckWorking)
      case CheckWorking => s.(sim := if s.flags.working then Refresh else TakeRest)
      case Refresh => s.(clock := Refreshed(c), sim := Wait(c.progress))
      case Wait(t) => s.(clock := Waited(c, t), sim := CheckRequest)
      case CheckRequest => s.(sim := if s.jobs.request.Some? then RefreshForJob else CheckWorking)
      case RefreshForJob => s.(clock := Refreshed(c), sim := WaitForJob(c.progress))
      case WaitForJob(t) => s.(clock := Waited(c, t), sim := RunJob)
      case RunJob =>
        s.(clock := c.(now := c.now + time), jobs := Executed(s.jobs), sim := ClearRequest)
      case ClearRequest => s.(jobs := s.jobs.(request := None), sim := CheckWorking)
      case TakeRest => s.(clock := c.(progress := 0), sim := WaitRest(c.progress))
      case WaitRest(t) => s.(clock := Waited(c, t), sim := Outside)
  }

  function Executed(j: Jobs): Jobs {
    if j.request.None? then j else j.(executed := j.executed + multiset{j.request.value})
  }

  function SuspenderNext(s: State, t: nat): State {
    if t in s.suspenders && s.suspenders[t].Asking? then
      s.(suspenders := if s.flags.blocked then s.suspenders[t := Held(s.suspenders[t].since)] else s.suspenders)
    else
      s.(flags := s.flags.(blockRequest := true), suspenders := s.suspenders[t := Asking(s.flags.resumes)])
  }

  function Next(s: State, step: Step): State {
    match step
    case Suspend(t) => SuspenderNext(s, t)
    case Resume => s.(flags := s.flags.(blockRequest := false, resumes := s.flags.resumes + 1))
    case Kill => s.(flags := s.flags.(alive := false))
    case SetRunning(on) => s.(flags := s.flags.(running := on))
    case Work(c) => WorkerNext(s, c)
    case Simulate(time) => SimulationNext(s, time)
  }

  function Run(s: State, steps: seq<Step>): State {
    if steps == [] then s else Next(Run(s, steps[..|steps| - 1]), steps[|steps| - 1])
  }

  // Mutual exclusion

  /** The worker has passed the block and has not yet announced that it stopped. */
  predicate Loose(w: Worker) {
    w.Task? || w.ReportProgress? || w.EnterSync? || w.Terminated? || w.LeaveTask?
  }

  /** The block that suspend asked for is still asked for. */
  predicate Keeps(f: Flags, h: Suspender) {
    h.since <= f.resumes && (h.since == f.resumes ==> f.blockRequest && (h.Held? && f.alive ==> f.blocked))
  }

  predicate BlockingInv(s: State) {
    (s.flags.blocked ==> !Loose(s.worker)) && forall t :: t in s.suspenders ==> Keeps(s.flags, s.suspenders[t])
  }

  /** How a step may change the flags: only the worker itself unblocks, and not while it is held. */
  lemma FlagsStep(s: State, step: Step)
    ensures var f, f' := s.flags, Next(s, step).flags;
      && (f'.alive ==> f.alive) && f.resumes <= f'.resumes
      && (step.Resume? ==> f'.resumes > f.resumes)
      && (!step.Resume? ==> f'.resumes == f.resumes && (f.blockRequest ==> f'.blockRequest))
      && (f.blocked && f.blockRequest && f'.alive && !step.Resume? ==> f'.blocked)
    ensures !step.Suspend? ==> Next(s, step).suspenders == s.suspenders
    ensures (s.flags.blocked ==> !Loose(s.worker)) ==> (Next(s, step).flags.blocked ==> !Loose(Next(s, step).worker))
  {
  }

  lemma BlockingKept(s: State, step: Step)
    requires BlockingInv(s)
    ensures BlockingInv(Next(s, step))
  {
    FlagsStep(s, step);
    if !step.Suspend? {
      hide Next;
      assert forall t :: t in s.suspenders ==> Keeps(s.flags, s.suspenders[t]);
    }
  }

  lemma {:induction false} BlockingAlways(s: State, steps: seq<Step>)
    requires BlockingInv(s)
    ensures BlockingInv(Run(s, steps))
  {
    hide Next, BlockingInv;
    if steps != [] {
      BlockingAlways(s, steps[..|steps| - 1]);
      BlockingKept(Run(s, steps[..|steps| - 1]), steps[|steps| - 1]);
    }
  }

  /** A thread whose suspend returned, with no resume since it asked, finds a live worker outside of task code. */
  lemma MutualExclusion(steps: seq<Step>, t: nat)
    ensures var s := Run(INITIAL, steps);
      t in s.suspenders && s.suspenders[t] == Held(s.flags.resumes) && s.flags.alive ==>
        s.flags.blocked && !s.worker.Task?
  {
    hide Run;
    BlockingAlways(INITIAL, steps);
  }

  ghost predicate NoResume(steps: seq<Step>) {
    forall i :: 0 <= i < |steps| ==> !steps[i].Resume?
  }

  /** If the request is still set when suspend returns, the worker is held until the next resume. */
  lemma {:induction false} HeldUntilResume(s: State, steps: seq<Step>)
    requires BlockingInv(s) && s.flags.blocked && s.flags.blockRequest
    requires NoResume(steps)
    ensures var r := Run(s, steps);
      BlockingInv(r) && r.flags.blockRequest && (r.flags.alive ==> s.flags.alive && r.flags.blocked && !r.worker.Task?)
  {
    hide Next;
    if steps != [] {
      var n := |steps| - 1;
      HeldUntilResume(s, steps[..n]);
      FlagsStep(Run(s, steps[..n]), steps[n]);
      BlockingKept(Run(s, steps[..n]), steps[n]);
    }
  }

  /** A resume between the request and the return of suspend voids it: the worker runs task code although
  nobody resumed it since suspend returned. */
  lemma EarlyResumeVoidsSuspend() returns (before: seq<Step>, after: seq<Step>)
    ensures Run(INITIAL, before).suspenders == map[0 := Held(0)] && Run(INITIAL, before).flags.alive
    ensures forall i :: 0 <= i < |after| ==> after[i].Work?
    ensures var s := Run(Run(INITIAL, before), after);
      s.flags.alive && s.worker.Task? && s.suspenders == map[0 := Held(0)]
  {
    hide Next;
    before, after := [], [];
    assert Run(INITIAL, before) == INITIAL;
    VoidedRequest();
    before := Extended(INITIAL, before, Simulate(0));
    before := Extended(INITIAL, before, Work(Compute));
    before := Extended(INITIAL, before, Suspend(0));
    before := Extended(INITIAL, before, Resume);
    ReturnOnProgress(Run(INITIAL, before));
    before := Extended(INITIAL, before, Work(Compute));
    before := Extended(INITIAL, before, Work(Progress(1)));
    before := Extended(INITIAL, before, Work(Compute));
    before := Extended(INITIAL, before, Suspend(0));
    var s := Run(INITIAL, before);
    BackToTask(s);
    after := Extended(s, after, Work(Compute));
    after := Extended(s, after, Work(Compute));
  }

  lemma VoidedRequest()
    ensures var s := Next(Next(Next(Next(INITIAL, Simulate(0)), Work(Compute)), Suspend(0)), Resume);
      s.worker == PreRun(Begin) && s.suspenders == map[0 := Asking(0)] && s.flags == Flags(true, true, false, false, true, 1)
  {
  }

  lemma ReturnOnProgress(s: State)
    requires s.worker == PreRun(Begin) && s.suspenders == map[0 := Asking(0)]
    requires s.flags == Flags(true, true, false, false, true, 1)
    ensures var r := Next(Next(Next(Next(s, Work(Compute)), Work(Progress(1))), Work(Compute)), Suspend(0));
      r.worker == AddProgress(1) && r.suspenders == map[0 := Held(0)] && r.flags == Flags(true, true, true, false, true, 1)
  {
  }

  lemma BackToTask(s: State)
    requires s.worker == AddProgress(1) && s.flags.alive && !s.flags.blockRequest
    ensures var r := Next(Next(s, Work(Compute)), Work(Compute));
      r.worker.Task? && r.flags.alive && r.suspenders == s.suspenders
  {
  }

  lemma Extended(s: State, steps: seq<Step>, step: Step) returns (more: seq<Step>)
    ensures more == steps + [step] && Run(s, more) == Next(Run(s, steps), step)
  {
    hide Next;
    more := steps + [step];
    assert more[..|steps|] == steps;
  }

  // Time

  function Inflight(sim: Simulation): nat {
    match sim
    case Wait(t) => t
    case WaitForJob(t) => t
    case WaitRest(t) => t
    case _ => 0
  }

  /** The time stamp that the worker reads. */
  function Stamp(c: Clock): nat {
    c.threadPos + c.progress
  }

  predicate Busy(w: Worker) {
    !w.Idle? && !w.Exited?
  }

  predicate Resting(sim: Simulation) {
    sim.Outside? || sim.WaitRest?
  }

  /** The progress that task code decided to report and that has not been added yet. */
  function Undelivered(w: Worker): nat {
    match w
    case ReportProgress(delta) => delta
    case AddProgress(delta) => delta
    case _ => 0
  }

  /** The simulation thread begins a task. */
  predicate Begins(s: State, step: Step) {
    step.Simulate? && step.time == 0 && s.flags.running && s.sim.Outside?
  }

  /** The progress that task code decides to report in a step. */
  function ChosenBy(s: State, step: Step): nat {
    if step.Work? && s.worker.Task? && step.choice.Progress? then step.choice.delta else 0
  }

  /** The time that a sync job takes in a step. */
  function JobTimeOf(s: State, step: Step): nat {
    if step.Simulate? && s.flags.running && s.sim.RunJob? then step.time else 0
  }

  /** The time that passes in a step because the simulation thread waits for progress. */
  function WaitedIn(s: State, step: Step): int {
    if s.sim.Wait? || s.sim.WaitForJob? || s.sim.WaitRest? then Next(s, step).clock.now - s.clock.now else 0
  }

  /** What the steps of the last task add up to: when it began, the progress that its code decided to report, the time
  that was waited for, and the time its sync jobs took. */
  datatype Log = Log(began: nat, chosen: nat, waited: int, jobTime: nat)

  function Logged(l: Log, s: State, step: Step): Log {
    if Begins(s, step) then Log(s.clock.now, 0, 0, 0)
    else Log(l.began, l.chosen + ChosenBy(s, step), l.waited + WaitedIn(s, step), l.jobTime + JobTimeOf(s, step))
  }

  function LogOf(s: State, steps: seq<Step>): Log {
    if steps == [] then Log(s.clock.now, 0, 0, 0)
    else Logged(LogOf(s, steps[..|steps| - 1]), Run(s, steps[..|steps| - 1]), steps[|steps| - 1])
  }

  predicate TimeInv(s: State) {
    && s.clock.threadPos <= s.clock.now + Inflight(s.sim)
    && (Busy(s.worker) ==> s.flags.working)
    && (Resting(s.sim) || s.sim.TakeRest? ==> !s.flags.working)
    && (Resting(s.sim) ==> s.clock.progress == 0)
  }

  /** What was chosen has been waited for, is being waited for, is pending or is about to be reported. */
  predicate Booked(s: State, l: Log) {
    && l.chosen == l.waited + Inflight(s.sim) + s.clock.progress + Undelivered(s.worker)
    && (!s.sim.Outside? ==> s.clock.now == l.began + l.waited + l.jobTime)
  }

  lemma TimeKept(s: State, step: Step)
    requires TimeInv(s)
    ensures TimeInv(Next(s, step))
  {
  }

  lemma BookedStep(s: State, l: Log, step: Step)
    requires TimeInv(s) && Booked(s, l)
    ensures Booked(Next(s, step), Logged(l, s, step))
  {
  }

  lemma {:induction false} TimeAlways(s: State, steps: seq<Step>)
    requires TimeInv(s) && Booked(s, Log(s.clock.now, 0, 0, 0))
    ensures TimeInv(Run(s, steps)) && Booked(Run(s, steps), LogOf(s, steps))
  {
    hide Next, TimeInv, Booked, Logged;
    if steps != [] {
      TimeAlways(s, steps[..|steps| - 1]);
      TimeKept(Run(s, steps[..|steps| - 1]), steps[|steps| - 1]);
      BookedStep(Run(s, steps[..|steps| - 1]), LogOf(s, steps[..|steps| - 1]), steps[|steps| - 1]);
    }
  }

  /** When a task has returned, exactly the progress that its code decided to report was waited for; the time it took
  is that progress and the time its sync jobs took. */
  lemma ProgressIsConserved(steps: seq<Step>)
    ensures var s, l := Run(INITIAL, steps), LogOf(INITIAL, steps);
      && (s.sim.Outside? ==> l.waited == l.chosen && s.clock.progress == 0 && !Busy(s.worker))
      && (s.sim.WaitRest? && s.flags.running ==> SimulationNext(s, 0).clock.now == l.began + l.chosen + l.jobTime)
  {
    TimeAtStart();
    hide *;
    TimeAlways(INITIAL, steps);
    NothingLeft(Run(INITIAL, steps), LogOf(INITIAL, steps));
  }

  lemma TimeAtStart()
    ensures TimeInv(INITIAL) && Booked(INITIAL, Log(INITIAL.clock.now, 0, 0, 0))
  {
  }

  lemma NothingLeft(s: State, l: Log)
    requires TimeInv(s) && Booked(s, l)
    ensures s.sim.Outside? ==> l.waited == l.chosen && s.clock.progress == 0 && !Busy(s.worker)
    ensures s.sim.WaitRest? && s.flags.running ==> SimulationNext(s, 0).clock.now == l.began + l.chosen + l.jobTime
  {
  }

  /** How far the stored position is behind the simulation thread. */
  function Behind(s: State): int {
    s.clock.now + Inflight(s.sim) - s.clock.threadPos
  }

  predicate Refreshes(s: State, step: Step) {
    step.Simulate? && s.flags.running && (s.sim.Refresh? || s.sim.RefreshForJob?)
  }

  /** The task is over as soon as the simulation thread has seen that the worker stopped. */
  predicate InTask(s: State) {
    !Resting(s.sim) && !s.sim.TakeRest?
  }

  /** The stamp moves by the progress that is delivered; a refresh catches up with the simulation thread. */
  lemma StampStep(s: State, step: Step)
    requires TimeInv(s) && InTask(s)
    ensures var r := Next(s, step);
      && Behind(s) >= 0
      && Stamp(r.clock) == Stamp(s.clock) + (if step.Work? && s.worker.AddProgress? then s.worker.delta else 0)
                           + (if Refreshes(s, step) then Behind(s) else 0)
      && Undelivered(r.worker) == Undelivered(s.worker) + ChosenBy(s, step)
                                  - (if step.Work? && s.worker.AddProgress? then s.worker.delta else 0)
      && Behind(r) == (if Refreshes(s, step) then 0 else Behind(s)) + JobTimeOf(s, step)
  {
  }

  /** All steps are made while the same task runs. */
  predicate WithinTask(s: State, steps: seq<Step>) {
    forall i :: 0 <= i < |steps| ==> InTask(Run(s, steps[..i]))
  }

  /** Within a task the time stamp never decreases. It gains the progress that task code decided to report, but for
  what is still to be delivered, and what the position was behind and sync jobs took. */
  lemma {:induction false} StampIsMonotone(s: State, steps: seq<Step>)
    requires TimeInv(s) && WithinTask(s, steps)
    ensures var r, l := Run(s, steps), LogOf(s, steps);
      && TimeInv(r) && 0 <= Behind(r) && 0 <= Behind(s)
      && Undelivered(r.worker) <= Undelivered(s.worker) + l.chosen
      && Stamp(r.clock) >= Stamp(s.clock) + Undelivered(s.worker) + l.chosen - Undelivered(r.worker)
      && Stamp(r.clock) + Undelivered(r.worker) + Behind(r)
         == Stamp(s.clock) + Undelivered(s.worker) + Behind(s) + l.chosen + l.jobTime
  {
    hide Next, InTask, Stamp, Refreshes, ChosenBy, JobTimeOf, Undelivered, WaitedIn;
    if steps != [] {
      var n := |steps| - 1;
      assert forall i :: 0 <= i < n ==> steps[..n][..i] == steps[..i];
      StampIsMonotone(s, steps[..n]);
      TimeKept(Run(s, steps[..n]), steps[n]);
      StampStep(Run(s, steps[..n]), steps[n]);
      InTaskBegan(Run(s, steps[..n]), steps[n]);
    }
  }

  lemma InTaskBegan(s: State, step: Step)
    requires InTask(s)
    ensures !Begins(s, step)
  {
  }

  // Sync jobs

  /** The worker left run_sync by an exception and will not run task code again. */
  predicate Terminating(s: State) {
    || s.worker == PreRun(Terminate)
    || s.worker.Terminated?
    || (!s.flags.alive && (s.worker.LeaveTask? || s.worker.FinishTask? || !Busy(s.worker)))
  }

  predicate ServesJob(sim: Simulation) {
    sim.RefreshForJob? || sim.WaitForJob? || sim.RunJob? || sim.ClearRequest?
  }

  predicate RequestInv(s: State) {
    && (s.jobs.request.Some? ==>
          Terminating(s) || s.worker == AwaitRequest(s.jobs.request.value) || s.worker == CheckAlive(s.jobs.request.value))
    && (ServesJob(s.sim) ==> s.jobs.request.Some?)
    && (Busy(s.worker) ==> s.flags.working)
    && (Resting(s.sim) || s.sim.TakeRest? ==> !s.flags.working)
    && (s.sim.WaitForJob? || s.sim.RunJob? ==>
          s.clock.progress == 0 && s.clock.threadPos == s.clock.now + Inflight(s.sim))
  }

  lemma RequestKept(s: State, step: Step)
    requires RequestInv(s)
    ensures RequestInv(Next(s, step))
  {
  }

  /** The job of the worker has not run before it is handed over, and has run once it is no longer requested. */
  predicate WorkerJob(w: Worker, j: Jobs) {
    match w
    case EnterSync(k) => k < j.issued && j.executed[k] == 0
    case SetRequest(k) => k < j.issued && j.executed[k] == 0
    case AwaitRequest(k) => j.request.None? ==> j.executed[k] == 1
    case CheckAlive(k) => j.request.None? ==> j.executed[k] == 1
    case PreRun(goal) => goal.Synced? ==> j.executed[goal.job] == 1
    case _ => true
  }

  predicate RequestedJob(sim: Simulation, j: Jobs) {
    j.request.Some? ==>
      j.request.value < j.issued && j.executed[j.request.value] == if sim.ClearRequest? then 1 else 0
  }

  ghost predicate AtMostOnce(j: Jobs) {
    forall k: nat :: j.executed[k] <= 1 && (k >= j.issued ==> j.executed[k] == 0)
  }

  ghost predicate JobsInv(s: State) {
    AtMostOnce(s.jobs) && RequestedJob(s.sim, s.jobs) && WorkerJob(s.worker, s.jobs)
  }

  lemma JobsKeptByWorker(s: State, c: Choice)
    requires RequestInv(s) && JobsInv(s)
    ensures JobsInv(WorkerNext(s, c))
  {
  }

  lemma JobsKeptBySimulation(s: State, time: nat)
    requires RequestInv(s) && JobsInv(s)
    ensures JobsInv(SimulationNext(s, time))
  {
  }

  lemma JobsKept(s: State, step: Step)
    requires RequestInv(s) && JobsInv(s)
    ensures JobsInv(Next(s, step))
  {
    hide RequestInv, WorkerNext, SimulationNext;
    if step.Work? {
      JobsKeptByWorker(s, step.choice);
    } else if step.Simulate? {
      JobsKeptBySimulation(s, step.time);
    }
  }

  lemma {:induction false} JobsAlways(s: State, steps: seq<Step>)
    requires RequestInv(s) && JobsInv(s)
    ensures RequestInv(Run(s, steps)) && JobsInv(Run(s, steps))
  {
    hide Next, RequestInv, JobsInv;
    if steps != [] {
      JobsAlways(s, steps[..|steps| - 1]);
      RequestKept(Run(s, steps[..|steps| - 1]), steps[|steps| - 1]);
      JobsKept(Run(s, steps[..|steps| - 1]), steps[|steps| - 1]);
    }
  }

  /** No job ever runs twice, and a job whose run_sync returns normally has run. A job starts when the simulation
  time is the time stamp of the worker, with no progress pending. */
  lemma JobsRunOnceAndOnTime(steps: seq<Step>, k: nat, time: nat)
    ensures var s := Run(INITIAL, steps);
      && s.jobs.executed[k] <= 1
      && (s.worker == PreRun(Synced(k)) ==> s.jobs.executed[k] == 1)
      && (s.sim.RunJob? && s.flags.running ==>
            && s.clock.now == Stamp(s.clock) && s.clock.progress == 0
            && s.jobs.request.Some?
            && SimulationNext(s, time).jobs.executed == s.jobs.executed + multiset{s.jobs.request.value})
  {
    hide Run;
    JobsAlways(INITIAL, steps);
  }

  predicate Undisturbed(s: State) {
    s.flags.alive && s.flags.running && s.worker != PreRun(Terminate) && !s.worker.Terminated? && !s.worker.Exited?
  }

  lemma StaysUndisturbed(s: State, step: Step)
    requires Undisturbed(s) && !step.Kill? && step != SetRunning(false)
    ensures Undisturbed(Next(s, step))
  {
  }

  /** While the simulation runs and nobody kills the worker, run_sync only returns normally. */
  lemma {:induction false} NobodyTerminates(steps: seq<Step>)
    requires forall i :: 0 <= i < |steps| ==> !steps[i].Kill? && steps[i] != SetRunning(false)
    ensures Undisturbed(Run(INITIAL, steps))
  {
    hide Next;
    if steps != [] {
      NobodyTerminates(steps[..|steps| - 1]);
      StaysUndisturbed(Run(INITIAL, steps[..|steps| - 1]), steps[|steps| - 1]);
    }
  }

  // The end of a worker

  /** How many of its own steps a killed worker is away from its end if its task returns as soon as it can. */
  function ToExit(w: Worker): nat {
    match w
    case Exited => 0
    case Idle => 1
    case FinishTask => 2
    case LeaveTask => 3
    case Task => 4
    case Terminated => 4
    case PreRun(_) => 5
    case AddProgress(_) => 6
    case CheckAlive(_) => 6
    case ReportProgress(_) => 7
    case AwaitRequest(_) => 7
    case SetRequest(_) => 8
    case EnterSync(_) => 9
  }

  function WorkSteps(steps: seq<Step>): nat {
    if steps == [] then 0 else WorkSteps(steps[..|steps| - 1]) + if steps[|steps| - 1].Work? then 1 else 0
  }

  lemma KilledWork(s: State)
    requires !s.flags.alive
    ensures var r := WorkerNext(s, Return);
      !r.flags.alive && (s.worker.Exited? ==> r.worker.Exited?) && (!s.worker.Exited? ==> ToExit(r.worker) < ToExit(s.worker))
  {
  }

  lemma KilledOther(s: State, step: Step)
    requires !s.flags.alive && !step.Work?
    ensures Next(s, step).worker == s.worker && !Next(s, step).flags.alive
  {
  }

  lemma KilledStep(s: State, step: Step)
    requires !s.flags.alive && (step.Work? ==> step.choice.Return?)
    ensures var r := Next(s, step);
      && !r.flags.alive && (s.worker.Exited? ==> r.worker.Exited?) && ToExit(r.worker) <= ToExit(s.worker)
      && (step.Work? && !s.worker.Exited? ==> ToExit(r.worker) < ToExit(s.worker))
  {
    hide WorkerNext, SimulationNext;
    if step.Work? {
      KilledWork(s);
    } else {
      hide Next;
      KilledOther(s, step);
    }
    ExitIsZero(s.worker);
    ExitIsZero(Next(s, step).worker);
  }

  /** A killed worker whose task returns ends after nine of its own steps at most, whatever suspends it, even while it
  waits for a sync job. */
  lemma {:induction false} KilledWorkerExits(s: State, steps: seq<Step>)
    requires !s.flags.alive && forall i :: 0 <= i < |steps| ==> steps[i].Work? ==> steps[i].choice.Return?
    ensures var r := Run(s, steps);
      && !r.flags.alive && (WorkSteps(steps) >= 9 ==> r.worker.Exited?)
      && (r.worker.Exited? || ToExit(r.worker) + WorkSteps(steps) <= ToExit(s.worker))
  {
    hide Next, ToExit;
    if steps != [] {
      KilledWorkerExits(s, steps[..|steps| - 1]);
      KilledStep(Run(s, steps[..|steps| - 1]), steps[|steps| - 1]);
      ExitIsZero(Run(s, steps[..|steps| - 1]).worker);
    }
    ExitIsZero(s.worker);
    ExitIsZero(Run(s, steps).worker);
  }

  lemma ExitIsZero(w: Worker)
    ensures ToExit(w) <= 9 && (ToExit(w) == 0 <==> w.Exited?)
  {
  }

  /** The worker is in run_sync with a job that nobody has run yet, or it has left it by the exception. */
  predicate Waiting(s: State) {
    match s.worker
    case EnterSync(_) => true
    case SetRequest(_) => true
    case AwaitRequest(_) => s.jobs.request.Some?
    case CheckAlive(_) => s.jobs.request.Some?
    case _ => Terminating(s)
  }

  function ToException(w: Worker): nat {
    match w
    case EnterSync(_) => 4
    case SetRequest(_) => 3
    case AwaitRequest(_) => 2
    case CheckAlive(_) => 1
    case _ => 0
  }

  lemma StoppedStep(s: State, step: Step)
    requires Waiting(s) && !s.flags.running && (step.SetRunning? ==> !step.running)
    requires Busy(s.worker) ==> s.flags.working
    ensures var r := Next(s, step);
      && Waiting(r) && !r.flags.running && (Busy(r.worker) ==> r.flags.working)
      && ToException(r.worker) <= ToException(s.worker)
      && (step.Work? && ToException(s.worker) > 0 ==> ToException(r.worker) < ToException(s.worker))
  {
  }

  /** When the simulation has stopped for good, a worker in run_sync leaves it by the exception within four of its own
  steps: nobody will run its job. */
  lemma {:induction false} StoppedSyncTerminates(s: State, steps: seq<Step>)
    requires Waiting(s) && !s.flags.running && (Busy(s.worker) ==> s.flags.working)
    requires forall i :: 0 <= i < |steps| && steps[i].SetRunning? ==> !steps[i].running
    ensures var r := Run(s, steps);
      && Waiting(r) && !r.flags.running && (Busy(r.worker) ==> r.flags.working)
      && (ToException(r.worker) == 0 || ToException(r.worker) + WorkSteps(steps) <= 4)
      && (WorkSteps(steps) >= 4 ==> Terminating(r))
  {
    hide Next, Waiting, ToException, Terminating;
    if steps != [] {
      StoppedSyncTerminates(s, steps[..|steps| - 1]);
      StoppedStep(Run(s, steps[..|steps| - 1]), steps[|steps| - 1]);
    }
    ExceptionLeft(s);
    ExceptionLeft(Run(s, steps));
  }

  lemma ExceptionLeft(s: State)
    requires Waiting(s)
    ensures ToException(s.worker) <= 4 && (ToException(s.worker) == 0 ==> Terminating(s))
  {
  }

  // Exactly when a suspended worker is held

  /** No run without a resume brings the worker, while alive, back to task code. */
  ghost predicate HeldWithoutResume(s: State) {
    forall steps :: NoResume(steps) ==> Run(s, steps).flags.alive ==> !Run(s, steps).worker.Task?
  }

  lemma {:induction false} RunFirst(s: State, step: Step, steps: seq<Step>)
    ensures Run(s, [step] + steps) == Run(Next(s, step), steps)
  {
    hide Next;
    var all := [step] + steps;
    if steps == [] {
      assert all == [step] && all[..0] == [];
    } else {
      var n := |steps| - 1;
      assert all[..|all| - 1] == [step] + steps[..n] && all[|all| - 1] == steps[n];
      RunFirst(s, step, steps[..n]);
    }
  }

  /** If one step leads to a state that is not held, the state before it was not held. */
  lemma NotHeldBefore(s: State, step: Step)
    requires !step.Resume? && !HeldWithoutResume(Next(s, step))
    ensures !HeldWithoutResume(s)
  {
    hide Next, Run;
    var steps :| NoResume(steps) && Run(Next(s, step), steps).flags.alive && Run(Next(s, step), steps).worker.Task?;
    RunFirst(s, step, steps);
    assert NoResume([step] + steps);
  }

  lemma NotHeldInTask(s: State)
    requires s.flags.alive && s.worker.Task?
    ensures !HeldWithoutResume(s)
  {
    assert NoResume([]) && Run(s, []) == s;
  }

  /** Nobody blocks the worker and the simulation runs. */
  predicate Free(s: State) {
    s.flags.alive && s.flags.running && !s.flags.blockRequest && RequestInv(s)
  }

  lemma FreePreRunEnters(s: State)
    requires Free(s) && s.worker.PreRun? && !s.worker.goal.Terminate?
    ensures !HeldWithoutResume(s)
  {
    NotHeldInTask(Next(s, Work(Compute)));
    NotHeldBefore(s, Work(Compute));
  }

  /** How many steps of the simulation thread it takes until the request of the worker is gone. */
  function UntilServed(s: State): nat {
    if s.jobs.request.None? then 0 else
      match s.sim
      case CheckWorking => 8
      case Refresh => 7
      case Wait(_) => 6
      case CheckRequest => 5
      case RefreshForJob => 4
      case WaitForJob(_) => 3
      case RunJob => 2
      case _ => 1
  }

  lemma AwaitingStep(s: State)
    requires Free(s) && s.worker.AwaitRequest? && s.jobs.request.Some?
    ensures var r := Next(s, Simulate(0)); Free(r) && r.worker == s.worker && UntilServed(r) < UntilServed(s)
  {
    RequestKept(s, Simulate(0));
    hide RequestInv;
    WorkingInside(s);
  }

  lemma WorkingInside(s: State)
    requires RequestInv(s) && Busy(s.worker)
    ensures s.flags.working && !Resting(s.sim) && !s.sim.TakeRest?
  {
  }

  lemma {:induction false} FreeAwaitingEnters(s: State)
    requires Free(s) && s.worker.AwaitRequest?
    ensures !HeldWithoutResume(s)
    decreases UntilServed(s)
  {
    if s.jobs.request.None? {
      RequestKept(s, Work(Compute));
      FreePreRunEnters(Next(s, Work(Compute)));
      NotHeldBefore(s, Work(Compute));
    } else {
      AwaitingStep(s);
      FreeAwaitingEnters(Next(s, Simulate(0)));
      NotHeldBefore(s, Simulate(0));
    }
  }

  /** How many steps of the simulation thread it takes until the idle worker has a task. */
  function UntilTask(s: State): nat {
    if s.flags.working then 0 else
      match s.sim
      case Refresh => 7
      case Wait(_) => 6
      case CheckRequest => 5
      case CheckWorking => 4
      case TakeRest => 3
      case WaitRest(_) => 2
      case _ => 1
  }

  lemma IdleStep(s: State)
    requires Free(s) && s.worker.Idle? && !s.flags.working
    ensures var r := Next(s, Simulate(0)); Free(r) && r.worker == s.worker && UntilTask(r) < UntilTask(s)
  {
    RequestKept(s, Simulate(0));
    assert s.jobs.request.None? && !ServesJob(s.sim);
    hide RequestInv;
  }

  lemma {:induction false} FreeIdleEnters(s: State)
    requires Free(s) && s.worker.Idle?
    ensures !HeldWithoutResume(s)
    decreases UntilTask(s)
  {
    if s.flags.working {
      RequestKept(s, Work(Compute));
      FreePreRunEnters(Next(s, Work(Compute)));
      NotHeldBefore(s, Work(Compute));
    } else {
      IdleStep(s);
      FreeIdleEnters(Next(s, Simulate(0)));
      NotHeldBefore(s, Simulate(0));
    }
  }

  /** A free worker that has announced that it stopped can always come back to task code. */
  lemma FreeWorkerEnters(s: State)
    requires Free(s) && !Loose(s.worker) && !s.worker.Exited? && s.worker != PreRun(Terminate)
    ensures !HeldWithoutResume(s)
  {
    var r := Next(s, Work(Compute));
    RequestKept(s, Work(Compute));
    hide RequestInv, HeldWithoutResume;
    match s.worker
    case Idle => FreeIdleEnters(s);
    case PreRun(_) => FreePreRunEnters(s);
    case AwaitRequest(_) => FreeAwaitingEnters(s);
    case AddProgress(_) =>
      FreePreRunEnters(r);
      NotHeldBefore(s, Work(Compute));
    case SetRequest(_) =>
      FreeAwaitingEnters(r);
      NotHeldBefore(s, Work(Compute));
    case CheckAlive(_) =>
      FreeAwaitingEnters(r);
      NotHeldBefore(s, Work(Compute));
    case FinishTask =>
      FreeIdleEnters(r);
      NotHeldBefore(s, Work(Compute));
  }

  /** The worker is about to end its task by an exception, or it is dead. */
  predicate Doomed(s: State) {
    !s.flags.alive || s.worker == PreRun(Terminate) || s.worker.Terminated?
  }

  lemma DoomedStep(s: State, step: Step)
    ensures Doomed(s) ==> Doomed(Next(s, step))
    ensures (s.worker.Exited? ==> !s.flags.alive) ==> Next(s, step).worker.Exited? ==> !Next(s, step).flags.alive
  {
  }

  lemma {:induction false} DoomedStays(s: State, steps: seq<Step>)
    ensures Doomed(s) ==> Doomed(Run(s, steps))
    ensures (s.worker.Exited? ==> !s.flags.alive) ==> Run(s, steps).worker.Exited? ==> !Run(s, steps).flags.alive
  {
    hide Next, Doomed;
    if steps != [] {
      DoomedStays(s, steps[..|steps| - 1]);
      DoomedStep(Run(s, steps[..|steps| - 1]), steps[|steps| - 1]);
    }
  }

  /** In every reachable state in which suspend may return, a live worker is held until the next resume exactly if the
  request is still set, or if the worker is about to leave its task for good because the simulation stopped. */
  lemma HeldIffStillRequested(steps: seq<Step>)
    ensures var s := Run(INITIAL, steps);
      s.flags.blocked && s.flags.alive ==>
        (HeldWithoutResume(s) <==> s.flags.blockRequest || s.worker == PreRun(Terminate))
  {
    hide Run;
    var s := Run(INITIAL, steps);
    BlockingAlways(INITIAL, steps);
    JobsAlways(INITIAL, steps);
    DoomedStays(INITIAL, steps);
    if s.flags.blocked && s.flags.alive {
      if s.flags.blockRequest {
        forall more | NoResume(more) ensures Run(s, more).flags.alive ==> !Run(s, more).worker.Task? {
          HeldUntilResume(s, more);
        }
      } else if s.worker == PreRun(Terminate) {
        forall more ensures Run(s, more).flags.alive ==> !Run(s, more).worker.Task? {
          DoomedStays(s, more);
        }
      } else {
        var r := Next(s, SetRunning(true));
        RequestKept(s, SetRunning(true));
        FreeWorkerEnters(r);
        NotHeldBefore(s, SetRunning(true));
      }
    }
  }
}
