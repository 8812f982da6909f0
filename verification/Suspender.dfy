/** The suspend manager: threads ask the simulation thread to stop, wait until it stands still and let it go on. */
module Suspenders {
  import opened Sequences

  /** The queues and flags under the lock. A handler run is scheduled for the first suspender that queues. */
  datatype Manager = Manager(waiting: seq<nat>, active: seq<nat>, suspended: bool, quitting: bool, scheduled: nat)

  function Kept(q: seq<nat>, who: set<nat>): (r: seq<nat>)
    ensures forall x :: x in r <==> x in q && x in who
    ensures |r| <= |q|
  {
    if q == [] then [] else Kept(q[..|q| - 1], who) + if q[|q| - 1] in who then [q[|q| - 1]] else []
  }

  function Dropped(q: seq<nat>, who: set<nat>): (r: seq<nat>)
    ensures forall x :: x in r <==> x in q && x !in who
    ensures |r| <= |q|
  {
    if q == [] then [] else Dropped(q[..|q| - 1], who) + if q[|q| - 1] in who then [] else [q[|q| - 1]]
  }

  lemma FilterStart(who: set<nat>)
    ensures Kept([], who) == Dropped([], who) == []
  {
  }

  lemma FilterStep(q: seq<nat>, i: nat, who: set<nat>)
    requires i < |q|
    ensures Kept(q[..i + 1], who) == Kept(q[..i], who) + if q[i] in who then [q[i]] else []
    ensures Dropped(q[..i + 1], who) == Dropped(q[..i], who) + if q[i] in who then [] else [q[i]]
  {
    assert q[..i + 1][..i] == q[..i];
  }

  lemma {:induction false} FiltersInOrder(q: seq<nat>, who: set<nat>)
    ensures InOrder(Kept(q, who), q) && InOrder(Dropped(q, who), q)
  {
    if q != [] {
      var init, last := q[..|q| - 1], q[|q| - 1];
      FiltersInOrder(init, who);
      OneMoreInOrder(init, last, Kept(init, who));
      OneMoreInOrder(init, last, Dropped(init, who));
      assert q == init + [last];
    }
  }

  predicate Apart(q: seq<nat>, r: seq<nat>) {
    forall x :: x in q ==> x !in r
  }

  lemma {:induction false} FiltersDistinct(q: seq<nat>, who: set<nat>)
    requires Distinct(q)
    ensures Distinct(Kept(q, who)) && Distinct(Dropped(q, who)) && Apart(Kept(q, who), Dropped(q, who))
  {
    if q != [] {
      var init, last := q[..|q| - 1], q[|q| - 1];
      FiltersDistinct(init, who);
      assert last !in init;
    }
  }

  lemma JoinDistinct(q: seq<nat>, r: seq<nat>)
    requires Distinct(q) && Distinct(r) && Apart(q, r)
    ensures Distinct(q + r)
  {
    forall i, j | 0 <= i < j < |q + r| ensures (q + r)[i] != (q + r)[j] {
      if i < |q| <= j {
        assert q[i] in q && r[j - |q|] in r;
      }
    }
  }

  function Paused(m: Manager, s: nat, willing: bool): Manager {
    if s in m.active || s in m.waiting then m
    else if m.active != [] && willing then m.(active := m.active + [s])
    else m.(waiting := m.waiting + [s], scheduled := if m.waiting == [] then m.scheduled + 1 else m.scheduled)
  }

  function Resumed(m: Manager, s: nat): Manager {
    m.(waiting := Dropped(m.waiting, {s}), active := Dropped(m.active, {s}))
  }

  /** The simulation thread is notified when the last active suspender resumes. */
  predicate LastResumes(m: Manager, s: nat) {
    s in m.active && Dropped(m.active, {s}) == []
  }

  function Quitted(m: Manager): Manager {
    m.(waiting := [], active := [], quitting := true)
  }

  function Collected(m: Manager, willing: set<nat>): Manager {
    var active := m.active + Kept(m.waiting, willing);
    m.(waiting := Dropped(m.waiting, willing), active := active, suspended := m.suspended || active != [])
  }

  predicate MayLeave(m: Manager) {
    m.active == [] || m.quitting
  }

  predicate QueuesInv(m: Manager) {
    Distinct(m.waiting) && Distinct(m.active) && Apart(m.waiting, m.active)
  }

  lemma QueuesStay(m: Manager, s: nat, willing: bool)
    ensures QueuesInv(m) ==> QueuesInv(Paused(m, s, willing))
  {
  }

  lemma ResumeMeans(m: Manager, s: nat)
    ensures var r := Resumed(m, s);
      && InOrder(r.waiting, m.waiting) && InOrder(r.active, m.active) && (QueuesInv(m) ==> QueuesInv(r))
      && (LastResumes(m, s) <==> s in m.active && forall x :: x in m.active ==> x == s)
  {
    FiltersInOrder(m.waiting, {s});
    FiltersInOrder(m.active, {s});
    hide Kept, Dropped, InOrder;
    if QueuesInv(m) {
      FiltersDistinct(m.waiting, {s});
      FiltersDistinct(m.active, {s});
    }
    var left := Dropped(m.active, {s});
    if left != [] {
      assert left[0] in left;
    }
    assert left == [] ==> forall x :: x in m.active ==> x !in left;
  }

  class SuspendManager {
    var isQuitting: bool
    var isSuspended: bool
    var waiting: seq<nat>
    var active: seq<nat>
    var scheduled: nat

    function State(): Manager
      reads this
    {
      Manager(waiting, active, isSuspended, isQuitting, scheduled)
    }

    constructor ()
      ensures State() == Manager([], [], false, false, 0)
    {
      isQuitting, isSuspended, waiting, active, scheduled := false, false, [], [], 0;
    }

    /** The locked part of a pause request of suspender `s`. It is in exactly one queue afterwards: active if it was, or
    if it can join a held simulation; and the handler is scheduled for the first that has to wait. */
    method RequestPause(s: nat, willing: bool)
      modifies this
      ensures old(QueuesInv(State())) ==> QueuesInv(State()) && (s in waiting <==> s !in active)
      ensures s in active <==> s in old(active) || (s !in old(waiting) && old(active) != [] && willing)
      ensures s in waiting || s in active
      ensures forall x :: x != s ==> (x in waiting <==> x in old(waiting)) && (x in active <==> x in old(active))
      ensures scheduled == old(scheduled) + if old(waiting) == [] && waiting != [] then 1 else 0
      ensures isQuitting == old(isQuitting) && isSuspended == old(isSuspended)
      ensures waiting == old(waiting) || waiting == old(waiting) + [s]
      ensures active == old(active) || active == old(active) + [s]
      ensures State() == Paused(old(State()), s, willing)
    {
      QueuesStay(State(), s, willing);
      if s in active || s in waiting {
        return;
      }
      if active != [] && willing {
        active := active + [s];
      } else {
        if waiting == [] {
          scheduled := scheduled + 1;
        }
        waiting := waiting + [s];
      }
    }

    /** Suspender `s` leaves both queues, whether it waits or is active. Everybody else stays, in order. The simulation
    thread is notified exactly if `s` was active and nobody else was. */
    method RequestResume(s: nat) returns (notify: bool)
      modifies this
      ensures s !in waiting && s !in active
      ensures forall x :: x != s ==> (x in waiting <==> x in old(waiting)) && (x in active <==> x in old(active))
      ensures InOrder(waiting, old(waiting)) && InOrder(active, old(active))
      ensures old(QueuesInv(State())) ==> QueuesInv(State())
      ensures notify <==> s in old(active) && forall x :: x in old(active) ==> x == s
      ensures isQuitting == old(isQuitting) && isSuspended == old(isSuspended) && scheduled == old(scheduled)
      ensures State() == Resumed(old(State()), s) && notify == LastResumes(old(State()), s)
    {
      hide Kept, Dropped, InOrder, Distinct;
      ResumeMeans(State(), s);
      waiting := Dropped(waiting, {s});
      if s !in active {
        NothingDropped(active, {s});
        return false;
      }
      active := Dropped(active, {s});
      notify := active == [];
    }

    /** Nobody waits, nobody is active, and a simulation that is held may go on. */
    method Quit()
      modifies this
      ensures isQuitting && waiting == [] && active == [] && QueuesInv(State()) && MayLeave(State())
      ensures isSuspended == old(isSuspended) && scheduled == old(scheduled)
      ensures State() == Quitted(old(State()))
    {
      isQuitting := true;
      waiting, active := [], [];
    }

    /** Sort the waiting suspenders into those that accept the suspension point and those that do not. */
    method Collect(willing: set<nat>)
      modifies this
      ensures forall x :: x in waiting <==> x in old(waiting) && x !in willing
      ensures |old(active)| <= |active| && active[..|old(active)|] == old(active)
      ensures forall x :: x in active[|old(active)|..] <==> x in old(waiting) && x in willing
      ensures InOrder(waiting, old(waiting)) && InOrder(active[|old(active)|..], old(waiting))
      ensures isSuspended <==> old(isSuspended) || active != []
      ensures isQuitting == old(isQuitting) && scheduled == old(scheduled)
      ensures State() == Collected(old(State()), willing)
    {
      hide Kept, Dropped, InOrder;
      FilterStart(willing);
      FiltersInOrder(waiting, willing);
      var suspenders := waiting;
      waiting := [];
      var i := 0;
      while i < |suspenders|
        invariant i <= |suspenders| && scheduled == old(scheduled)
        invariant isQuitting == old(isQuitting) && isSuspended == old(isSuspended)
        invariant waiting == Dropped(suspenders[..i], willing)
        invariant active == old(active) + Kept(suspenders[..i], willing)
      {
        FilterStep(suspenders, i, willing);
        if suspenders[i] in willing {
          active := active + [suspenders[i]];
        } else {
          waiting := waiting + [suspenders[i]];
        }
        i := i + 1;
      }
      assert suspenders[..i] == suspenders;
      if active != [] {
        isSuspended := true;
      }
    }

    method Release()
      modifies this
      ensures State() == old(State()).(suspended := false)
    {
      isSuspended := false;
    }
  }

  lemma {:induction false} NothingDropped(q: seq<nat>, who: set<nat>)
    requires forall x :: x in q ==> x !in who
    ensures Dropped(q, who) == q
  {
    if q != [] {
      var init, last := q[..|q| - 1], q[|q| - 1];
      assert q == init + [last] && last in q;
      NothingDropped(init, who);
    }
  }

  // The manager among threads

  /** Where the simulation thread is in handling requests. While it sleeps it may have been notified. */
  datatype Handler = Away | Entered | Notifying | Sleeping(notified: bool) | Leaving

  /** The simulation thread among the others. It never waits for itself: after the lock it goes on. */
  const SIMULATION: nat := 0

  /** Where a thread is that suspends: it asked whether the manager quits, it queued, it waits, it went on. */
  datatype Thread = Idle | Checked(s: nat) | Queued(s: nat) | Parked(s: nat) | Yielded(s: nat) | Failed(s: nat)

  datatype World = World(m: Manager, handler: Handler, threads: map<nat, Thread>)

  datatype Step =
    | Pause(t: nat, s: nat)
    | Proceed(t: nat, willing: bool)
    | Resume(s: nat)
    | Quit
    | HandleRequests(scheduled: bool)
    | Handle(accepting: set<nat>)

  const INITIAL := World(Manager([], [], false, false, 0), Away, map[])

  function Notified(h: Handler, now: bool): Handler {
    if h.Sleeping? && now then Sleeping(true) else h
  }

  function ThreadOf(w: World, t: nat): Thread {
    if t in w.threads then w.threads[t] else Idle
  }

  /** The simulation thread is between its look at the quitting flag and the lock: it does nothing else. */
  predicate Asking(w: World) {
    ThreadOf(w, SIMULATION).Checked?
  }

  /** A thread that is neither suspending nor, as the simulation thread, inside the lock or asleep. */
  predicate MayPause(w: World, t: nat) {
    var at := ThreadOf(w, t);
    && !at.Checked? && !at.Queued? && !at.Parked?
    && (t == SIMULATION ==> !w.handler.Entered? && !w.handler.Sleeping?)
  }

  /** A thread takes the lock or looks again whether its suspender is active. */
  function Proceeds(w: World, t: nat, willing: bool): World {
    match ThreadOf(w, t)
    case Checked(s) =>
      w.(m := Paused(w.m, s, willing), threads := w.threads[t := if t == SIMULATION then Idle else Queued(s)])
    case Queued(s) =>
      w.(threads := w.threads[t := if s in w.m.active then Yielded(s) else if s in w.m.waiting then Parked(s) else Failed(s)])
    case Parked(s) => if s in w.m.active then w.(threads := w.threads[t := Yielded(s)]) else w
    case _ => w
  }

  function Handles(w: World, willing: set<nat>): World {
    match w.handler
    case Away => w
    case Entered =>
      var m := Collected(w.m, willing);
      w.(m := m, handler := if m.active == [] then Away else Notifying)
    case Notifying => w.(handler := if MayLeave(w.m) then Leaving else Sleeping(false))
    case Sleeping(_) => w.(handler := if MayLeave(w.m) then Leaving else Sleeping(false))
    case Leaving => w.(m := w.m.(suspended := false), handler := Away)
  }

  function Enters(w: World, scheduled: bool): World {
    if !w.handler.Away? || Asking(w) || (scheduled && w.m.scheduled == 0) then w else
      w.(m := if scheduled then w.m.(scheduled := w.m.scheduled - 1) else w.m,
         handler := if w.m.quitting then Away else Entered)
  }

  function Next(w: World, step: Step): World {
    match step
    case Pause(t, s) => if MayPause(w, t) && !w.m.quitting then w.(threads := w.threads[t := Checked(s)]) else w
    case Proceed(t, willing) => Proceeds(w, t, willing)
    case Resume(s) => w.(m := Resumed(w.m, s), handler := Notified(w.handler, LastResumes(w.m, s)))
    case Quit => w.(m := Quitted(w.m), handler := Notified(w.handler, true))
    case HandleRequests(scheduled) => Enters(w, scheduled)
    case Handle(accepting) => if Asking(w) then w else Handles(w, accepting)
  }

  function Run(w: World, steps: seq<Step>): World {
    if steps == [] then w else Next(Run(w, steps[..|steps| - 1]), steps[|steps| - 1])
  }

  /** The simulation thread stands still inside the handler. */
  predicate Holding(h: Handler) {
    h.Notifying? || h.Sleeping?
  }

  predicate HandlerInv(w: World) {
    && (w.m.suspended <==> Holding(w.handler) || w.handler.Leaving?)
    && (!w.m.quitting && w.m.active != [] ==> Holding(w.handler))
    && (w.handler.Sleeping? && MayLeave(w.m) ==> w.handler.notified)
    && (Asking(w) ==> !w.handler.Entered? && !w.handler.Sleeping?)
  }

  lemma QueuesKept(w: World, step: Step)
    requires QueuesInv(w.m)
    ensures QueuesInv(Next(w, step).m)
  {
    var m := w.m;
    match step
    case Resume(s) =>
      FiltersDistinct(m.waiting, {s});
      FiltersDistinct(m.active, {s});
    case Handle(accepting) =>
      FiltersDistinct(m.waiting, accepting);
      JoinDistinct(m.active, Kept(m.waiting, accepting));
    case _ =>
  }

  /** A thread that asked for `s` takes the lock. */
  predicate Queues(w: World, step: Step, s: nat) {
    step.Proceed? && ThreadOf(w, step.t) == Checked(s)
  }

  lemma OutStep(w: World, step: Step, s: nat)
    requires s !in w.m.waiting && s !in w.m.active && !Queues(w, step, s)
    ensures s !in Next(w, step).m.waiting && s !in Next(w, step).m.active
  {
  }

  /** A suspender that resumed, from whatever queue, is in no queue until a pause request for it takes the lock again. */
  lemma {:induction false} ResumedStaysOut(w: World, s: nat, steps: seq<Step>)
    requires forall i :: 0 <= i < |steps| ==> !Queues(Run(Next(w, Resume(s)), steps[..i]), steps[i], s)
    ensures var r := Run(Next(w, Resume(s)), steps); s !in r.m.waiting && s !in r.m.active
  {
    if steps != [] {
      var n := |steps| - 1;
      assert forall i :: 0 <= i < n ==> steps[..n][..i] == steps[..i];
      ResumedStaysOut(w, s, steps[..n]);
      OutStep(Run(Next(w, Resume(s)), steps[..n]), steps[n], s);
    }
  }

  lemma HandlerKept(w: World, step: Step)
    requires HandlerInv(w)
    ensures HandlerInv(Next(w, step))
  {
  }

  lemma {:induction false} InvAlways(w: World, steps: seq<Step>)
    requires QueuesInv(w.m) && HandlerInv(w)
    ensures QueuesInv(Run(w, steps).m) && HandlerInv(Run(w, steps))
  {
    hide Next, QueuesInv, HandlerInv;
    if steps != [] {
      InvAlways(w, steps[..|steps| - 1]);
      QueuesKept(Run(w, steps[..|steps| - 1]), steps[|steps| - 1]);
      HandlerKept(Run(w, steps[..|steps| - 1]), steps[|steps| - 1]);
    }
  }

  /** Every reachable state: distinct and disjoint queues, and unless the manager quits, an active suspender means
  that the simulation is marked suspended and its thread stands inside the handler. A sleeping handler that may
  leave has been notified. */
  lemma ReachableIsSafe(steps: seq<Step>)
    ensures var w := Run(INITIAL, steps);
      && QueuesInv(w.m)
      && (!w.m.quitting && w.m.active != [] ==> w.m.suspended && Holding(w.handler))
      && (w.m.suspended ==> !w.handler.Away? && !w.handler.Entered?)
      && (w.handler.Sleeping? && MayLeave(w.m) ==> w.handler.notified)
      && (Asking(w) ==> !w.handler.Entered? && !w.handler.Sleeping?)
  {
    hide Run;
    InvAlways(INITIAL, steps);
  }

  /** Nobody lets suspender `s` go on. */
  ghost predicate NoRelease(steps: seq<Step>, s: nat) {
    forall i :: 0 <= i < |steps| ==> steps[i] != Resume(s) && steps[i] != Quit
  }

  lemma ActiveStays(w: World, step: Step, s: nat)
    requires HandlerInv(w) && s in w.m.active && !w.m.quitting && step != Resume(s) && step != Quit
    ensures s in Next(w, step).m.active && !Next(w, step).m.quitting && HandlerInv(Next(w, step))
  {
    HandlerKept(w, step);
  }

  /** A thread whose yield returns before the manager quits sees the simulation held, and it stays held until
  its suspender resumes or the manager quits. */
  lemma {:induction false} YieldHoldsSimulation(w: World, t: nat, willing: bool, s: nat, steps: seq<Step>)
    requires HandlerInv(w) && !w.m.quitting && (ThreadOf(w, t) == Queued(s) || ThreadOf(w, t) == Parked(s))
    requires ThreadOf(Next(w, Proceed(t, willing)), t) == Yielded(s) && NoRelease(steps, s)
    ensures var r := Run(Next(w, Proceed(t, willing)), steps);
      HandlerInv(r) && s in r.m.active && !r.m.quitting && Holding(r.handler) && r.m.suspended
  {
    HandlerKept(w, Proceed(t, willing));
    if steps != [] {
      var n := |steps| - 1;
      YieldHoldsSimulation(w, t, willing, s, steps[..n]);
      hide Next, HandlerInv;
      var v := Run(Next(w, Proceed(t, willing)), steps[..n]);
      ActiveStays(v, steps[n], s);
      HeldWhileActive(Next(v, steps[n]));
    }
  }

  lemma HeldWhileActive(w: World)
    requires HandlerInv(w) && w.m.active != [] && !w.m.quitting
    ensures Holding(w.handler) && w.m.suspended
  {
  }

  /** Once the last suspender resumed, nobody joins before the simulation thread has left the handler. */
  lemma {:induction false} EmptyStaysEmpty(w: World, steps: seq<Step>)
    requires w.m.active == [] && (Holding(w.handler) || w.handler.Leaving?)
    requires forall i :: 0 <= i < |steps| ==> !Run(w, steps[..i]).handler.Away?
    ensures var r := Run(w, steps);
      r.m.active == [] && (Holding(r.handler) || r.handler.Leaving? || r.handler.Away?)
  {
    if steps != [] {
      var n := |steps| - 1;
      assert forall i :: 0 <= i < n ==> steps[..n][..i] == steps[..i];
      EmptyStaysEmpty(w, steps[..n]);
      assert !Run(w, steps[..n]).handler.Away?;
      EmptyStep(Run(w, steps[..n]), steps[n]);
    }
  }

  lemma EmptyStep(w: World, step: Step)
    requires w.m.active == [] && (Holding(w.handler) || w.handler.Leaving?)
    ensures var r := Next(w, step); r.m.active == [] && (Holding(r.handler) || r.handler.Leaving? || r.handler.Away?)
  {
  }

  /** A queued suspender has a handler run ahead. */
  predicate Pending(w: World) {
    w.m.waiting != [] && !w.m.quitting ==> w.m.scheduled > 0 || w.handler.Entered?
  }

  lemma PendingKept(w: World, step: Step)
    requires Pending(w)
    requires step.Handle? && w.handler.Entered? ==> forall s :: s in w.m.waiting ==> s in step.accepting
    ensures Pending(Next(w, step))
  {
    if step.Handle? && w.handler.Entered? {
      AllDropped(w.m.waiting, step.accepting);
    }
  }

  lemma {:induction false} AllDropped(q: seq<nat>, who: set<nat>)
    requires forall x :: x in q ==> x in who
    ensures Dropped(q, who) == []
  {
    if q != [] {
      AllDropped(q[..|q| - 1], who);
    }
  }

  /** Every look of the handler at the waiting suspenders finds all of them willing. */
  ghost predicate AllAccept(w: World, steps: seq<Step>) {
    forall i :: 0 <= i < |steps| && steps[i].Handle? && Run(w, steps[..i]).handler.Entered? ==>
      forall s :: s in Run(w, steps[..i]).m.waiting ==> s in steps[i].accepting
  }

  /** As long as all accept, a queued suspender always has a handler run ahead. */
  lemma {:induction false} PendingAlways(w: World, steps: seq<Step>)
    requires Pending(w) && AllAccept(w, steps)
    ensures Pending(Run(w, steps))
  {
    hide Next, Pending;
    if steps != [] {
      var n := |steps| - 1;
      assert forall i :: 0 <= i < n ==> steps[..n][..i] == steps[..i];
      PendingAlways(w, steps[..n]);
      PendingKept(Run(w, steps[..n]), steps[n]);
    }
  }

  /** A look of the handler leaves a run ahead for everybody exactly if another one is scheduled or all accept. */
  lemma RejectionStrands(w: World, accepting: set<nat>)
    requires HandlerInv(w) && w.handler.Entered? && !w.m.quitting
    ensures Pending(Next(w, Handle(accepting))) <==>
      w.m.scheduled > 0 || forall s :: s in w.m.waiting ==> s in accepting
  {
    if forall s :: s in w.m.waiting ==> s in accepting {
      PendingKept(w, Handle(accepting));
    } else {
      var s :| s in w.m.waiting && s !in accepting;
      assert s in Dropped(w.m.waiting, accepting);
    }
  }

  /** A suspender that asks and rejects the first suspension point is left behind. */
  lemma StrandedRun(t: nat, s: nat, willing: bool) returns (steps: seq<Step>)
    ensures var w := Run(INITIAL, steps);
      s in w.m.waiting && s !in w.m.active && w.m.scheduled == 0 && !w.handler.Entered? && !w.m.quitting && !Pending(w)
  {
    hide Next;
    steps := Extended([], Pause(t, s));
    steps := Extended(steps, Proceed(t, willing));
    steps := Extended(steps, HandleRequests(true));
    AskedAndEntered(t, s, willing);
    RejectedAlone(Run(INITIAL, steps), s);
    steps := Extended(steps, Handle({}));
  }

  lemma AskedAndEntered(t: nat, s: nat, willing: bool)
    ensures var w := Next(Next(Next(INITIAL, Pause(t, s)), Proceed(t, willing)), HandleRequests(true));
      w.handler.Entered? && !Asking(w) && w.m == Manager([s], [], false, false, 0)
  {
  }

  lemma RejectedAlone(w: World, s: nat)
    requires w.handler.Entered? && !Asking(w) && w.m == Manager([s], [], false, false, 0)
    ensures var r := Next(w, Handle({}));
      s in r.m.waiting && s !in r.m.active && r.m.scheduled == 0 && !r.handler.Entered? && !r.m.quitting && !Pending(r)
  {
    hide Kept, Dropped;
    assert s in Dropped([s], {}) && s !in Kept([s], {});
  }

  lemma Extended(steps: seq<Step>, step: Step) returns (more: seq<Step>)
    ensures more == steps + [step] && Run(INITIAL, more) == Next(Run(INITIAL, steps), step)
  {
    hide Next;
    more := steps + [step];
    assert more[..|steps|] == steps;
  }

  /** A suspender left behind stays queued, and no further pause request schedules a run of the handler. */
  lemma {:induction false} StrandedForever(w: World, s: nat, steps: seq<Step>)
    requires s in w.m.waiting && s !in w.m.active && w.m.scheduled == 0 && !w.handler.Entered?
    requires NoRelease(steps, s) && forall i :: 0 <= i < |steps| ==> steps[i] != HandleRequests(false)
    ensures var r := Run(w, steps);
      s in r.m.waiting && s !in r.m.active && r.m.scheduled == 0 && !r.handler.Entered?
  {
    if steps != [] {
      var n := |steps| - 1;
      StrandedForever(w, s, steps[..n]);
      StrandedStep(Run(w, steps[..n]), s, steps[n]);
    }
  }

  lemma StrandedStep(w: World, s: nat, step: Step)
    requires s in w.m.waiting && s !in w.m.active && w.m.scheduled == 0 && !w.handler.Entered?
    requires step != Resume(s) && step != Quit && step != HandleRequests(false)
    ensures var r := Next(w, step); s in r.m.waiting && s !in r.m.active && r.m.scheduled == 0 && !r.handler.Entered?
  {
  }

  // After a quit

  /** How far the simulation thread is from having left the handler. */
  function Distance(h: Handler): nat {
    match h
    case Away => 0
    case Leaving => 1
    case Sleeping(_) => 2
    case Notifying => 3
    case Entered => 4
  }

  /** How many turns in the handler the simulation thread takes. */
  function Turns(w: World, steps: seq<Step>): nat {
    if steps == [] then 0 else
      var init, last := steps[..|steps| - 1], steps[|steps| - 1];
      Turns(w, init) + if last.Handle? && !Asking(Run(w, init)) then 1 else 0
  }

  /** A thread is between its look at the quitting flag and the lock only if it was there before. */
  ghost predicate NobodyNew(before: World, after: World) {
    forall t :: ThreadOf(after, t).Checked? ==> ThreadOf(before, t) == ThreadOf(after, t)
  }

  lemma QuittingStep(w: World, step: Step)
    requires w.m.quitting
    ensures var r := Next(w, step);
      && r.m.quitting && NobodyNew(w, r) && Distance(r.handler) <= Distance(w.handler)
      && (step.Handle? && !Asking(w) && !w.handler.Away? ==> Distance(r.handler) < Distance(w.handler))
      && (w.m.active == [] && !w.handler.Entered? ==> r.m.active == [] && !r.handler.Entered?)
  {
  }

  /** A manager that quits goes on quitting, no further thread gets past the look at the flag, and the simulation
  thread leaves the handler for good within four turns. Unless it was about to look at the queue, nobody becomes
  active any more. */
  lemma {:induction false} QuitIsFinal(w: World, steps: seq<Step>)
    requires w.m.quitting
    ensures var r := Run(w, steps);
      && r.m.quitting && NobodyNew(w, r)
      && Distance(r.handler) <= (if Turns(w, steps) < Distance(w.handler) then Distance(w.handler) - Turns(w, steps) else 0)
      && (w.m.active == [] && !w.handler.Entered? ==> r.m.active == [] && !r.handler.Entered?)
  {
    hide Next, Distance, Asking;
    if steps != [] {
      var n := |steps| - 1;
      QuitIsFinal(w, steps[..n]);
      QuittingStep(Run(w, steps[..n]), steps[n]);
      NotAway(Run(w, steps[..n]).handler);
    }
  }

  lemma NotAway(h: Handler)
    ensures h.Away? <==> Distance(h) == 0
  {
  }

  lemma AskedBefore(w: World, step: Step)
    requires w.m.quitting && forall t :: !ThreadOf(w, t).Checked?
    ensures var r := Next(w, step);
      && r.m.quitting && (forall t :: !ThreadOf(r, t).Checked?)
      && (w.m.waiting == [] == w.m.active ==> r.m.waiting == [] == r.m.active)
  {
    QuittingStep(w, step);
  }

  lemma {:induction false} StaysEmpty(w: World, steps: seq<Step>)
    requires w.m.quitting && w.m.waiting == [] == w.m.active && forall t :: !ThreadOf(w, t).Checked?
    ensures var r := Run(w, steps);
      r.m.quitting && r.m.waiting == [] == r.m.active && forall t :: !ThreadOf(r, t).Checked?
  {
    hide Next;
    if steps != [] {
      StaysEmpty(w, steps[..|steps| - 1]);
      AskedBefore(Run(w, steps[..|steps| - 1]), steps[|steps| - 1]);
    }
  }

  ghost predicate EmptyForGood(w: World) {
    forall steps :: Run(w, steps).m.waiting == [] == Run(w, steps).m.active
  }

  /** A manager that quits with empty queues keeps them empty exactly if no thread, the simulation thread included, is
  between its look at the flag and the lock. */
  lemma EmptyForGoodIff(w: World)
    requires w.m.quitting && w.m.waiting == [] == w.m.active
    ensures EmptyForGood(w) <==> forall t :: !ThreadOf(w, t).Checked?
  {
    if t :| ThreadOf(w, t).Checked? {
      var step := Proceed(t, true);
      assert Next(w, step).m.waiting != [];
      hide Next;
      assert [step][..0] == [];
      assert Run(w, [step]) == Next(w, step);
    } else {
      forall steps ensures Run(w, steps).m.waiting == [] == Run(w, steps).m.active {
        StaysEmpty(w, steps);
      }
    }
  }

  /** Right after a quit that is: exactly if no thread was there. */
  lemma QuitEmptiesIff(w: World)
    ensures EmptyForGood(Next(w, Quit)) <==> forall t :: !ThreadOf(w, t).Checked?
  {
    hide Run;
    EmptyForGoodIff(Next(w, Quit));
    assert forall t :: ThreadOf(Next(w, Quit), t) == ThreadOf(w, t);
  }

  /** A thread that looked at the flag before the quit still queues its suspender after it. */
  lemma QueuesAfterQuit(t: nat, s: nat, willing: bool) returns (steps: seq<Step>)
    ensures var w := Run(INITIAL, steps); w.m.quitting && w.m.waiting == [s] && w.m.active == []
  {
    hide Next;
    AskedBeforeQuit(t, s, willing);
    steps := Extended([], Pause(t, s));
    steps := Extended(steps, Quit);
    steps := Extended(steps, Proceed(t, willing));
  }

  lemma AskedBeforeQuit(t: nat, s: nat, willing: bool)
    ensures var w := Next(Next(Next(INITIAL, Pause(t, s)), Quit), Proceed(t, willing));
      w.m.quitting && w.m.waiting == [s] && w.m.active == []
  {
  }
}
