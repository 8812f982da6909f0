/** Asynchronous timers: events in a shared heap that point back at their timers.

Timers may be created, reset, cancelled and destroyed at any time, also by the callbacks that run while a batch of
events fires. Events are named by numbers that are never used again, so that a freed event stays recognisable.
*/
module Timers {
  import opened Events
  import opened Wrappers

  datatype Event = Event(owner: Option<nat>, timeout: nat)

  /** A timer and how often it was reset, triggered and cancelled while armed. */
  datatype Timer = Timer(timeout: nat, event: Option<nat>, resets: nat, triggers: nat, cancels: nat)

  /** Where the helper is in running its timers. */
  datatype Phase = Idle | Collecting | Firing | Calling(timer: nat, event: nat)

  datatype World = World(
    timers: map<nat, Timer>,
    events: map<nat, Event>,
    next: nat,
    freed: set<nat>,
    heap: set<nat>,
    batch: seq<nat>,
    phase: Phase,
    now: nat,
    updating: bool,
    notified: Option<nat>)

  datatype Step =
    | Create(t: nat)
    | Reset(t: nat, delta: nat)
    | Cancel(t: nat)
    | Destroy(t: nat)
    | Update
    | Advance(to: nat)
    | RunTimers
    | Pop(e: nat)
    | Fire
    | FinishCallback

  const INITIAL := World(map[], map[], 0, {}, {}, [], Idle, 0, false, None)

  function Cancelled(w: World, t: nat): World {
    if t !in w.timers || w.timers[t].event.None? then w else
      var timer := w.timers[t];
      var e := timer.event.value;
      w.(timers := w.timers[t := timer.(event := None, cancels := timer.cancels + 1)],
         events := if e in w.events then w.events[e := w.events[e].(owner := None)] else w.events)
  }

  /** Attach a new event to an idle timer. */
  function Armed(w: World, t: nat, delta: nat): World {
    if t !in w.timers then w else
      var timer := w.timers[t];
      var at := w.now + delta;
      w.(timers := w.timers[t := timer.(event := Some(w.next), timeout := at, resets := timer.resets + 1)],
         events := w.events[w.next := Event(Some(t), at)], heap := w.heap + {w.next}, next := w.next + 1, updating := true)
  }

  predicate Due(w: World, e: nat) {
    e in w.heap && e in w.events && w.events[e].timeout <= w.now
  }

  /** No event in the heap is earlier. */
  predicate IsTop(w: World, e: nat) {
    e in w.heap && e in w.events && forall o :: o in w.heap && o in w.events ==> w.events[e].timeout <= w.events[o].timeout
  }

  ghost function TimerUpdated(w: World): World {
    if w.heap == {} then w.(notified := None)
    else if exists e :: IsTop(w, e) then
      var e :| IsTop(w, e);
      w.(notified := Notify(w.notified, if w.events[e].timeout < w.now then w.now else w.events[e].timeout))
    else w
  }

  function Freed(w: World, e: nat): World {
    w.(events := w.events - {e}, freed := w.freed + {e})
  }

  /** The next event of the batch: trigger its owner, or just free it if it has none. */
  function Fired(w: World, e: nat): World {
    if e !in w.events || w.events[e].owner.None? || w.events[e].owner.value !in w.timers then Freed(w, e)
    else
      var t := w.events[e].owner.value;
      var timer := w.timers[t];
      w.(timers := w.timers[t := timer.(event := None, triggers := timer.triggers + 1)], phase := Calling(t, e))
  }

  predicate UserCode(w: World) {
    w.phase.Idle? || w.phase.Calling?
  }

  predicate Enabled(w: World, step: Step) {
    match step
    case Create(t) => UserCode(w) && t !in w.timers
    case Reset(t, _) => UserCode(w) && t in w.timers
    case Cancel(t) => UserCode(w) && t in w.timers
    case Destroy(t) => UserCode(w) && t in w.timers
    case Update => w.phase.Idle?
    // updates are done before time moves on, and time stops at the next notification
    case Advance(to) => w.phase.Idle? && !w.updating && w.now < to && (w.notified.Some? ==> to <= w.notified.value)
    case RunTimers => w.phase.Idle? && w.notified == Some(w.now)
    case Pop(e) => w.phase.Collecting? && IsTop(w, e) && Due(w, e)
    case Fire => w.phase.Firing? || (w.phase.Collecting? && forall e :: e in w.heap ==> !Due(w, e))
    case FinishCallback => w.phase.Calling?
  }

  ghost function Next(w: World, step: Step): World {
    if !Enabled(w, step) then w else
      match step
      case Create(t) => w.(timers := w.timers[t := Timer(0, None, 0, 0, 0)])
      case Reset(t, delta) => Armed(Cancelled(w, t), t, delta)
      case Cancel(t) => Cancelled(w, t)
      case Destroy(t) => var c := Cancelled(w, t); c.(timers := c.timers - {t})
      case Update => TimerUpdated(w).(updating := false)
      case Advance(to) => w.(now := to)
      case RunTimers => w.(phase := Collecting, notified := None)
      case Pop(e) => w.(heap := w.heap - {e}, batch := w.batch + [e])
      case Fire =>
        if w.batch == [] then TimerUpdated(w).(phase := Idle)
        else Fired(w.(phase := Firing, batch := w.batch[1..]), w.batch[0])
      case FinishCallback => Freed(w, w.phase.event).(phase := Firing)
  }

  ghost function Run(w: World, steps: seq<Step>): World {
    if steps == [] then w else Next(Run(w, steps[..|steps| - 1]), steps[|steps| - 1])
  }

  predicate Queued(w: World, e: nat) {
    e in w.heap || e in w.batch
  }

  /** An armed timer has its event in the heap or the batch, and an event there points back or at nothing. */
  ghost predicate Linked(w: World) {
    && (forall t :: t in w.timers && w.timers[t].event.Some? ==>
          var e := w.timers[t].event.value;
          Queued(w, e) && e in w.events && w.events[e] == Event(Some(t), w.timers[t].timeout))
    && (forall e :: Queued(w, e) ==> e in w.events)
    && (forall e :: Queued(w, e) && w.events[e].owner.Some? ==>
          w.events[e].owner.value in w.timers && w.timers[w.events[e].owner.value].event == Some(e))
  }

  /** Every event was freed once or is in exactly one place. */
  ghost predicate Allocated(w: World) {
    && (forall e: nat :: e < w.next <==> e in w.events || e in w.freed)
    && w.freed !! w.events.Keys
    && (forall e :: e in w.events ==> Queued(w, e) || (w.phase.Calling? && w.phase.event == e))
    && (forall i, j :: 0 <= i < j < |w.batch| ==> w.batch[i] != w.batch[j])
    && (forall e :: e in w.batch ==> e !in w.heap)
    && (w.phase.Calling? ==> w.phase.event in w.events && !Queued(w, w.phase.event))
  }

  function Outstanding(t: Timer): nat {
    if t.event.Some? then 1 else 0
  }

  predicate Balanced(t: Timer) {
    t.resets == t.triggers + t.cancels + Outstanding(t)
  }

  ghost predicate Booked(w: World) {
    forall t :: t in w.timers ==> Balanced(w.timers[t])
  }

  ghost predicate Punctual(w: World) {
    && (forall e :: e in w.heap && e in w.events ==> w.events[e].timeout >= w.now)
    && (forall e :: e in w.batch && e in w.events ==> w.events[e].timeout == w.now)
    && (w.phase.Idle? ==> w.batch == [])
    && (w.notified.Some? ==> w.notified.value >= w.now)
    && (w.phase.Idle? && !w.updating && w.heap != {} ==>
          w.notified.Some? && forall e :: e in w.heap && e in w.events ==> w.notified.value <= w.events[e].timeout)
  }

  ghost predicate Inv(w: World) {
    Linked(w) && Allocated(w) && Booked(w) && Punctual(w)
  }

  lemma CancelKeeps(w: World, t: nat)
    requires Inv(w) && t in w.timers
    ensures var r := Cancelled(w, t); Inv(r) && t in r.timers && r.timers[t].event.None?
  {
    CancelKeepsLinks(w, t);
    assert Allocated(Cancelled(w, t)) by {
      hide Linked, Booked, Punctual;
    }
    assert Booked(Cancelled(w, t)) && Punctual(Cancelled(w, t)) by {
      hide Allocated;
    }
  }

  lemma CancelKeepsLinks(w: World, t: nat)
    requires Linked(w) && t in w.timers
    ensures Linked(Cancelled(w, t))
  {
  }

  lemma ArmKeeps(w: World, t: nat, delta: nat)
    requires Inv(w) && t in w.timers && w.timers[t].event.None?
    ensures Inv(Armed(w, t, delta))
  {
    ArmKeepsLinks(w, t, delta);
    hide Linked;
    assert w.next !in w.events && w.next !in w.freed;
    assert Booked(Armed(w, t, delta)) && Punctual(Armed(w, t, delta)) by {
      hide Allocated;
    }
  }

  lemma ArmKeepsLinks(w: World, t: nat, delta: nat)
    requires Linked(w) && Allocated(w) && t in w.timers && w.timers[t].event.None?
    ensures Linked(Armed(w, t, delta))
  {
  }

  lemma DestroyKeeps(w: World, t: nat)
    requires Inv(w) && t in w.timers && w.timers[t].event.None?
    ensures Inv(w.(timers := w.timers - {t}))
  {
  }

  lemma {:induction false} TopExists(w: World, s: set<nat>) returns (e: nat)
    requires s != {} && forall o :: o in s ==> o in w.events
    ensures e in s && forall o :: o in s ==> w.events[e].timeout <= w.events[o].timeout
    decreases s
  {
    e :| e in s;
    if s != {e} {
      var rest := s - {e};
      assert rest != {};
      var r := TopExists(w, rest);
      if w.events[r].timeout < w.events[e].timeout {
        forall o | o in s ensures w.events[r].timeout <= w.events[o].timeout {
          assert o == e || o in rest;
        }
        e := r;
      } else {
        forall o | o in s ensures w.events[e].timeout <= w.events[o].timeout {
          assert o == e || o in rest;
        }
      }
    }
  }

  /** After an update the pending notification is not later than any event. */
  lemma UpdateKeeps(w: World)
    requires Inv(w) && w.batch == [] && !w.phase.Calling?
    ensures Inv(TimerUpdated(w).(phase := Idle)) && Inv(TimerUpdated(w).(phase := Idle, updating := false))
  {
    hide Allocated, Booked, Linked;
    if w.heap != {} {
      assert forall o :: o in w.heap ==> o in w.events by {
        HeapIsLive(w);
      }
      var e := TopExists(w, w.heap);
      assert IsTop(w, e);
    }
    assert TimerUpdated(w) == w.(notified := TimerUpdated(w).notified);
    NotifiedIsIrrelevant(w, TimerUpdated(w).notified, w.updating);
    NotifiedIsIrrelevant(w, TimerUpdated(w).notified, false);
  }

  lemma HeapIsLive(w: World)
    requires Linked(w)
    ensures forall o :: o in w.heap ==> o in w.events
  {
    assert forall o :: o in w.heap ==> Queued(w, o);
  }

  lemma NotifiedIsIrrelevant(w: World, n: Option<nat>, updating: bool)
    requires Linked(w) && Allocated(w) && Booked(w) && !w.phase.Calling?
    ensures var r := w.(notified := n, phase := Idle, updating := updating); Linked(r) && Allocated(r) && Booked(r)
  {
    var r := w.(notified := n, phase := Idle, updating := updating);
    assert forall e :: Queued(r, e) <==> Queued(w, e);
  }

  lemma PopKeeps(w: World, e: nat)
    requires Inv(w) && w.phase.Collecting? && IsTop(w, e) && Due(w, e)
    ensures Inv(w.(heap := w.heap - {e}, batch := w.batch + [e]))
  {
    var r := w.(heap := w.heap - {e}, batch := w.batch + [e]);
    assert forall o :: Queued(r, o) <==> Queued(w, o);
  }

  /** Taking the first event of the batch leaves the others where they are. */
  lemma Rest(w: World)
    requires w.batch != [] && forall i, j :: 0 <= i < j < |w.batch| ==> w.batch[i] != w.batch[j]
    ensures forall o :: o in w.batch[1..] <==> o in w.batch && o != w.batch[0]
    ensures w.batch[0] in w.batch
  {
    forall o | o in w.batch && o != w.batch[0] ensures o in w.batch[1..] {
      var i :| 0 <= i < |w.batch| && w.batch[i] == o;
      assert w.batch[1..][i - 1] == o;
    }
  }

  lemma FireKeeps(w: World)
    requires Inv(w) && w.batch != [] && (w.phase.Firing? || w.phase.Collecting?)
    ensures Inv(Fired(w.(phase := Firing, batch := w.batch[1..]), w.batch[0]))
  {
    hide Linked, Allocated, Booked, Punctual, Fired;
    FireKeepsLinks(w);
    FireKeepsAllocated(w);
    FireKeepsTime(w);
  }

  lemma FireKeepsLinks(w: World)
    requires Linked(w) && Allocated(w) && Booked(w) && w.batch != []
    ensures var r := Fired(w.(phase := Firing, batch := w.batch[1..]), w.batch[0]); Linked(r) && Booked(r)
  {
    FiredQueue(w);
    hide Allocated, Queued;
    assert Queued(w, w.batch[0]);
  }

  lemma FireKeepsAllocated(w: World)
    requires Linked(w) && Allocated(w) && w.batch != [] && !w.phase.Calling?
    ensures Allocated(Fired(w.(phase := Firing, batch := w.batch[1..]), w.batch[0]))
  {
    FiredQueue(w);
  }

  lemma FireKeepsTime(w: World)
    requires Allocated(w) && Punctual(w) && w.batch != [] && !w.phase.Idle?
    ensures Punctual(Fired(w.(phase := Firing, batch := w.batch[1..]), w.batch[0]))
  {
    FiredQueue(w);
    hide Allocated;
  }

  lemma FiredQueue(w: World)
    requires Allocated(w) && w.batch != []
    ensures var e, r := w.batch[0], Fired(w.(phase := Firing, batch := w.batch[1..]), w.batch[0]);
      && Queued(w, e)
      && r.heap == w.heap && r.batch == w.batch[1..] && r.freed <= w.freed + {e}
      && (forall o :: o in r.batch <==> o in w.batch && o != e)
      && forall o :: Queued(r, o) <==> Queued(w, o) && o != e
  {
    Rest(w);
  }

  lemma FinishKeeps(w: World)
    requires Inv(w) && w.phase.Calling?
    ensures Inv(Freed(w, w.phase.event).(phase := Firing))
  {
    var r := Freed(w, w.phase.event).(phase := Firing);
    assert forall o :: Queued(r, o) <==> Queued(w, o);
  }

  lemma ClockKeeps(w: World, step: Step)
    requires Inv(w) && Enabled(w, step) && (step.Create? || step.Advance? || step.RunTimers?)
    ensures Inv(Next(w, step))
  {
    var r := Next(w, step);
    assert forall o :: Queued(r, o) <==> Queued(w, o);
  }

  lemma InvKept(w: World, step: Step)
    requires Inv(w)
    ensures Inv(Next(w, step))
  {
    hide Inv, Cancelled, Armed, Fired, Freed, TimerUpdated, IsTop;
    if Enabled(w, step) {
      match step
      case Reset(t, delta) =>
        CancelKeeps(w, t);
        ArmKeeps(Cancelled(w, t), t, delta);
      case Cancel(t) => CancelKeeps(w, t);
      case Destroy(t) =>
        CancelKeeps(w, t);
        DestroyKeeps(Cancelled(w, t), t);
      case Update => UpdateWhenIdle(w);
      case Pop(e) => PopKeeps(w, e);
      case Fire =>
        if w.batch == [] {
          UpdateKeeps(w);
        } else {
          FireKeeps(w);
        }
      case FinishCallback => FinishKeeps(w);
      case _ => ClockKeeps(w, step);
    }
  }

  lemma UpdateWhenIdle(w: World)
    requires Inv(w) && w.phase.Idle?
    ensures Inv(TimerUpdated(w).(updating := false))
  {
    UpdateKeeps(w);
    assert TimerUpdated(w).(phase := Idle, updating := false) == TimerUpdated(w).(updating := false);
  }

  lemma {:induction false} InvAlways(w: World, steps: seq<Step>)
    requires Inv(w)
    ensures Inv(Run(w, steps))
  {
    hide Next, Inv;
    if steps != [] {
      InvAlways(w, steps[..|steps| - 1]);
      InvKept(Run(w, steps[..|steps| - 1]), steps[|steps| - 1]);
    }
  }

  /** In every reachable state a timer's resets are its triggers, its cancellations and, if it is armed, one more;
  an armed timer has exactly one live event that points back, which is queued once and not overdue. */
  lemma TimersAreConserved(steps: seq<Step>, t: nat)
    ensures var w := Run(INITIAL, steps);
      && w.freed !! w.events.Keys
      && (t in w.timers ==>
            var timer := w.timers[t];
            && timer.resets == timer.triggers + timer.cancels + Outstanding(timer)
            && (timer.event.Some? ==>
                  && Queued(w, timer.event.value) && timer.event.value in w.events
                  && w.events[timer.event.value] == Event(Some(t), timer.timeout)
                  && w.now <= timer.timeout)
            && (forall e :: Queued(w, e) && e in w.events && w.events[e].owner == Some(t) ==> timer.event == Some(e)))
  {
    hide Run;
    InvAlways(INITIAL, steps);
  }

  /** An event that fires triggers exactly the timer that is armed with it, exactly when its time has come. */
  lemma TriggersOnTime(w: World)
    requires Inv(w) && Next(w, Fire).phase.Calling? && !w.phase.Calling?
    ensures var t, r := Next(w, Fire).phase.timer, Next(w, Fire);
      && t in w.timers && t in r.timers
      && w.timers[t].event == Some(r.phase.event) && w.timers[t].timeout == w.now == r.now
      && r.timers == w.timers[t := w.timers[t].(event := None, triggers := w.timers[t].triggers + 1)]
  {
    assert TimerUpdated(w) == w.(notified := TimerUpdated(w).notified);
    if w.batch != [] {
      assert Queued(w, w.batch[0]);
    }
  }

  // What a reset asks for

  /** Operations on a timer: a reset arms it with a new event for the current time plus the delay; what is created or
  cancelled is not armed, what is destroyed is gone. Other timers stay as they are. */
  lemma OperationMeans(w: World, op: Step, t: nat)
    requires Inv(w) && Enabled(w, op)
    requires op == Create(t) || op == Cancel(t) || op == Destroy(t) || (op.Reset? && op.t == t)
    ensures var r := Next(w, op);
      && r.now == w.now && r.phase == w.phase
      && (forall o :: o != t ==> (o in r.timers <==> o in w.timers) && (o in w.timers ==> r.timers[o] == w.timers[o]))
      && (op.Destroy? <==> t !in r.timers)
      && (op.Create? || op.Cancel? ==> r.timers[t].event.None?)
      && (op.Reset? ==>
            && r.timers[t].event.Some? && r.timers[t].timeout == w.now + op.delta
            && r.timers[t].event.value !in w.events && r.timers[t].event.value in r.heap
            && r.timers[t].event.value in r.events && r.updating
            && r.events[r.timers[t].event.value] == Event(Some(t), w.now + op.delta))
  {
    hide Linked, Booked, Punctual;
  }

  /** The timer waits for its event. */
  predicate Waiting(w: World, t: nat, e: nat, at: nat, triggers: nat) {
    && t in w.timers && w.timers[t].event == Some(e) && w.timers[t].timeout == at && w.timers[t].triggers == triggers
    && w.now <= at && !(w.phase.Calling? && w.phase.event == e)
  }

  /** It was called once, at its time. */
  predicate Called(w: World, t: nat, e: nat, at: nat, triggers: nat) {
    && t in w.timers && w.timers[t].event.None? && w.timers[t].triggers == triggers + 1 && at <= w.now && e < w.next
    && (w.phase.Calling? && w.phase.event == e ==> w.phase.timer == t && w.now == at)
    && !Queued(w, e)
  }

  /** A step that does not concern the timer. */
  predicate Spares(step: Step, t: nat) {
    step != Cancel(t) && step != Destroy(t) && (step.Reset? ==> step.t != t)
  }

  lemma WaitingStep(w: World, step: Step, t: nat, e: nat, at: nat, triggers: nat)
    requires Inv(w) && Waiting(w, t, e, at, triggers) && Spares(step, t)
    ensures var r := Next(w, step); Waiting(r, t, e, at, triggers) || Called(r, t, e, at, triggers)
  {
    InvKept(w, step);
    if step.Fire? && Enabled(w, step) && w.batch != [] {
      WaitingFire(w, t, e, at, triggers);
    } else {
      hide Inv, Next;
      NotCalledNext(w, step, t, e);
      ArmedIsAhead(Next(w, step), t);
    }
  }

  lemma NotCalledNext(w: World, step: Step, t: nat, e: nat)
    requires Inv(w) && t in w.timers && w.timers[t].event == Some(e) && Spares(step, t)
    requires !(step.Fire? && Enabled(w, step) && w.batch != [])
    requires !(w.phase.Calling? && w.phase.event == e)
    ensures var r := Next(w, step);
      t in r.timers && r.timers[t] == w.timers[t] && !(r.phase.Calling? && r.phase.event == e)
  {
    assert TimerUpdated(w) == w.(notified := TimerUpdated(w).notified);
    hide TimerUpdated, Booked, Allocated, Punctual, Linked, Fired, IsTop, Due;
  }

  lemma ArmedIsAhead(w: World, t: nat)
    requires Inv(w) && t in w.timers && w.timers[t].event.Some?
    ensures w.now <= w.timers[t].timeout
  {
    assert Queued(w, w.timers[t].event.value);
  }

  lemma WaitingFire(w: World, t: nat, e: nat, at: nat, triggers: nat)
    requires Inv(w) && Waiting(w, t, e, at, triggers) && w.batch != []
    ensures var r := Fired(w.(phase := Firing, batch := w.batch[1..]), w.batch[0]);
      if w.batch[0] == e then Called(r, t, e, at, triggers) else Waiting(r, t, e, at, triggers)
  {
    FiredQueue(w);
    assert Queued(w, e) && e in w.events && w.events[e] == Event(Some(t), at) && e < w.next;
    assert Queued(w, w.batch[0]);
    hide Booked, Allocated, Queued;
  }

  lemma CalledStep(w: World, step: Step, t: nat, e: nat, at: nat, triggers: nat)
    requires Inv(w) && Called(w, t, e, at, triggers) && Spares(step, t)
    ensures Called(Next(w, step), t, e, at, triggers)
  {
    if step.Fire? && Enabled(w, step) && w.batch != [] {
      CalledFire(w, t, e, at, triggers);
    } else if step.Create? || step.Reset? || step.Cancel? || step.Destroy? {
      CalledOperation(w, step, t, e, at, triggers);
    } else {
      assert TimerUpdated(w) == w.(notified := TimerUpdated(w).notified);
      hide TimerUpdated, Inv, Fired, Cancelled, Armed, IsTop, Due;
    }
  }

  lemma CalledOperation(w: World, step: Step, t: nat, e: nat, at: nat, triggers: nat)
    requires Called(w, t, e, at, triggers) && Spares(step, t)
    requires step.Create? || step.Reset? || step.Cancel? || step.Destroy?
    ensures Called(Next(w, step), t, e, at, triggers)
  {
  }

  lemma CalledFire(w: World, t: nat, e: nat, at: nat, triggers: nat)
    requires Inv(w) && Called(w, t, e, at, triggers) && w.batch != []
    ensures Called(Fired(w.(phase := Firing, batch := w.batch[1..]), w.batch[0]), t, e, at, triggers)
  {
    FiredQueue(w);
    assert Queued(w, w.batch[0]);
    hide Booked, Allocated, Punctual, Queued;
  }

  /** After a reset at time `n`, unless the timer is reset, cancelled or destroyed again, it waits and time does not
  pass `n + delta`, or it was called once; and it is called only at `n + delta`. */
  lemma {:induction false} CalledAtTimeout(w: World, t: nat, delta: nat, steps: seq<Step>)
    requires Inv(w) && Enabled(w, Reset(t, delta)) && forall i :: 0 <= i < |steps| ==> Spares(steps[i], t)
    ensures var start, r := Next(w, Reset(t, delta)), Run(Next(w, Reset(t, delta)), steps);
      && t in start.timers && start.timers[t].event.Some?
      && var e, triggers := start.timers[t].event.value, start.timers[t].triggers;
      && t in r.timers
      && (if r.timers[t].triggers == triggers then r.timers[t].event == Some(e) && r.now <= w.now + delta
          else r.timers[t].triggers == triggers + 1 && r.timers[t].event.None? && r.now >= w.now + delta)
      && (r.phase.Calling? && r.phase.event == e ==> r.phase.timer == t && r.now == w.now + delta)
      && (Waiting(r, t, e, w.now + delta, triggers) || Called(r, t, e, w.now + delta, triggers))
  {
    OperationMeans(w, Reset(t, delta), t);
    var start := Next(w, Reset(t, delta));
    var e, triggers := start.timers[t].event.value, start.timers[t].triggers;
    if steps == [] {
      NotBeingCalled(w, e);
    } else {
      var n := |steps| - 1;
      CalledAtTimeout(w, t, delta, steps[..n]);
      var before := Run(start, steps[..n]);
      InvKept(w, Reset(t, delta));
      InvAlways(start, steps[..n]);
      hide Next, Inv, Spares;
      if Waiting(before, t, e, w.now + delta, triggers) {
        WaitingStep(before, steps[n], t, e, w.now + delta, triggers);
      } else {
        CalledStep(before, steps[n], t, e, w.now + delta, triggers);
      }
    }
  }

  lemma NotBeingCalled(w: World, e: nat)
    requires Inv(w) && e !in w.events
    ensures !(w.phase.Calling? && w.phase.event == e)
  {
  }

  ghost predicate NotifiedFor(w: World, at: nat) {
    exists e :: e in w.heap && e in w.events && at == if w.events[e].timeout < w.now then w.now else w.events[e].timeout
  }

  /** An update leaves a notification for the earliest event, or for now if that is overdue, and keeps an earlier one;
  without events there is none. */
  lemma UpdateMeans(w: World)
    requires Linked(w)
    ensures var r := TimerUpdated(w);
      && r == w.(notified := r.notified)
      && (r.notified.None? <==> w.heap == {})
      && (w.heap != {} ==>
            && (forall e :: e in w.heap ==>
                  e in w.events && r.notified.value <= (if w.events[e].timeout < w.now then w.now else w.events[e].timeout))
            && (w.notified.Some? ==> r.notified.value <= w.notified.value)
            && (r.notified == w.notified || NotifiedFor(w, r.notified.value)))
  {
    HeapIsLive(w);
    if w.heap != {} {
      var e := TopExists(w, w.heap);
      assert IsTop(w, e);
    }
    hide Linked;
  }

  /** When the helper begins to fire, its batch holds every event whose time has come, and none has passed. */
  lemma BatchIsComplete(w: World, e: nat)
    requires Inv(w) && w.phase.Collecting? && Enabled(w, Fire) && Queued(w, e)
    ensures e in w.events && (e in w.batch <==> w.events[e].timeout <= w.now)
    ensures e in w.batch ==> w.events[e].timeout == w.now
  {
  }

  /** The event has lost its timer or is gone. */
  predicate Disowned(w: World, e: nat) {
    e < w.next && (e in w.events ==> w.events[e].owner.None?) && (w.phase.Calling? ==> w.phase.event != e)
  }

  lemma DisownedKept(w: World, step: Step, e: nat)
    requires Disowned(w, e)
    ensures Disowned(Next(w, step), e)
  {
    assert TimerUpdated(w) == w.(notified := TimerUpdated(w).notified);
  }

  /** An event that was cancelled, or whose timer was armed again or destroyed, never triggers anything. */
  lemma {:induction false} DisownedNeverTriggers(w: World, op: Step, t: nat, steps: seq<Step>)
    requires Inv(w) && t in w.timers && w.timers[t].event.Some? && Enabled(w, op)
    requires op == Cancel(t) || op == Destroy(t) || (op.Reset? && op.t == t)
    ensures var r := Run(Next(w, op), steps);
      r.phase.Calling? ==> r.phase.event != w.timers[t].event.value
    ensures Disowned(Run(Next(w, op), steps), w.timers[t].event.value)
  {
    var e := w.timers[t].event.value;
    if steps == [] {
      assert Queued(w, e);
    } else {
      var n := |steps| - 1;
      DisownedNeverTriggers(w, op, t, steps[..n]);
      DisownedKept(Run(Next(w, op), steps[..n]), steps[n], e);
    }
  }
}
