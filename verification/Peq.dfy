/** The payload event queue: payloads that become available to one consumer at their scheduled times. */
module Peq {
  import opened Events
  import opened Sequences
  import opened Wrappers

  datatype Entry = Entry(time: nat, payload: nat)

  predicate Sorted(s: seq<Entry>) {
    forall i, j :: 0 <= i < j < |s| ==> s[i].time <= s[j].time
  }

  /** No payload is scheduled twice for the same time. */
  ghost predicate Unique(s: seq<Entry>) {
    forall e :: multiset(s)[e] <= 1
  }

  /** The index behind all leading entries that are not later. */
  function UpperBound(s: seq<Entry>, t: nat): (k: nat)
    ensures k <= |s| && forall i :: 0 <= i < k ==> s[i].time <= t
    ensures k < |s| ==> s[k].time > t
  {
    if s == [] || s[0].time > t then 0 else 1 + UpperBound(s[1..], t)
  }

  function Placed(s: seq<Entry>, e: Entry): seq<Entry> {
    var k := UpperBound(s, e.time);
    s[..k] + [e] + s[k..]
  }

  function Removed(s: seq<Entry>, payload: nat): seq<Entry> {
    if s == [] then []
    else (if s[0].payload == payload then [] else [s[0]]) + Removed(s[1..], payload)
  }

  function Times(s: seq<Entry>): (r: seq<nat>)
    ensures |r| == |s| && forall i :: 0 <= i < |s| ==> r[i] == s[i].time
  {
    seq(|s|, i requires 0 <= i < |s| => s[i].time)
  }

  /** The first entry for a point in time. */
  function FindDue(s: seq<Entry>, t: nat): (r: Option<nat>)
    ensures r.Some? ==> r.value < |s| && s[r.value].time == t
    ensures r.None? ==> forall e :: e in s ==> e.time != t
  {
    assert forall i :: 0 <= i < |s| ==> s[i].time == Times(s)[i];
    Find(Times(s), t)
  }

  /** The consumer holds the payload it got, or it waits for the event of the queue. */
  datatype Consumer = Busy | Blocked

  /** The queue, the time and the consumer. The last three record what was accepted, delivered (with the time of
  delivery) and cancelled. */
  datatype State = State(
    schedule: seq<Entry>, pending: Option<nat>, now: nat, consumer: Consumer,
    accepted: multiset<Entry>, delivered: multiset<Entry>, cancelled: multiset<Entry>)

  const INITIAL := State([], None, 0, Busy, multiset{}, multiset{}, multiset{})

  function Updated(s: State): State {
    s.(pending := if s.schedule == [] then None else Notify(s.pending, s.schedule[0].time))
  }

  function Notified(s: State, payload: nat, delta: nat): State {
    var e := Entry(s.now + delta, payload);
    if e in s.schedule then s
    else Updated(s.(schedule := Placed(s.schedule, e), accepted := s.accepted + multiset{e}))
  }

  function Cancelled(s: State, payload: nat): State {
    if s.schedule == [] then s else
      var left := Removed(s.schedule, payload);
      Updated(s.(schedule := left, cancelled := s.cancelled + (multiset(s.schedule) - multiset(left))))
  }

  function Taken(s: State, i: nat): State
    requires i < |s.schedule|
  {
    Updated(s.(schedule := s.schedule[..i] + s.schedule[i + 1..], consumer := Busy,
               delivered := s.delivered + multiset{Entry(s.now, s.schedule[i].payload)}))
  }

  /** The consumer calls wait: it takes an entry of the current time or blocks. */
  function Waits(s: State): State {
    match FindDue(s.schedule, s.now)
    case Some(i) => Taken(s, i)
    case None => s.(consumer := Blocked)
  }

  /** The event of the queue wakes a blocked consumer, which looks again. */
  function Woken(s: State): State {
    var u := Updated(s.(pending := None));
    match FindDue(s.schedule, s.now)
    case Some(i) => Taken(u, i)
    case None => u
  }

  datatype Step = Schedule(payload: nat, delta: nat) | Cancel(payload: nat) | Wait | Fire | Advance(to: nat)

  /** Time moves on to the next notification at most, once nothing is left to do. */
  function Next(s: State, step: Step): State {
    match step
    case Schedule(payload, delta) => Notified(s, payload, delta)
    case Cancel(payload) => Cancelled(s, payload)
    case Wait => if s.consumer.Busy? then Waits(s) else s
    case Fire =>
      if s.pending != Some(s.now) then s
      else if s.consumer.Blocked? then Woken(s) else s.(pending := None)
    case Advance(to) =>
      if s.consumer.Blocked? && s.pending != Some(s.now) && s.now < to && (s.pending.Some? ==> to <= s.pending.value)
      then s.(now := to) else s
  }

  function Run(s: State, steps: seq<Step>): State {
    if steps == [] then s else Next(Run(s, steps[..|steps| - 1]), steps[|steps| - 1])
  }

  /** The first entry will be looked at: the event comes in time, or a busy consumer finds it when it returns. */
  predicate Armed(s: State) {
    s.schedule != [] ==>
      || (s.pending.Some? && s.now <= s.pending.value <= s.schedule[0].time)
      || (s.consumer.Busy? && s.schedule[0].time == s.now)
  }

  ghost predicate Inv(s: State) {
    && Sorted(s.schedule) && Unique(s.schedule) && Armed(s)
    && (forall e :: e in s.schedule ==> s.now <= e.time)
    && s.accepted == multiset(s.schedule) + s.delivered + s.cancelled
  }

  lemma PlacedMembers(s: seq<Entry>, e: Entry)
    ensures multiset(Placed(s, e)) == multiset(s) + multiset{e}
    ensures forall x :: x in Placed(s, e) <==> x in s || x == e
  {
    hide UpperBound;
    var k := UpperBound(s, e.time);
    assert s == s[..k] + s[k..];
    assert forall x :: x in Placed(s, e) <==> x in multiset(Placed(s, e));
    assert forall x :: x in s <==> x in multiset(s);
  }

  lemma PlacedSorted(s: seq<Entry>, e: Entry)
    requires Sorted(s)
    ensures Sorted(Placed(s, e))
  {
    hide UpperBound;
    var k, n := UpperBound(s, e.time), Placed(s, e);
    assert forall i :: k <= i < |s| ==> s[i].time > e.time;
    forall i, j | 0 <= i < j < |n| ensures n[i].time <= n[j].time {
      assert n[i] == if i < k then s[i] else if i == k then e else s[i - 1];
      assert n[j] == if j < k then s[j] else if j == k then e else s[j - 1];
    }
  }

  lemma {:induction false} RemovedMembers(s: seq<Entry>, payload: nat)
    ensures forall x :: x in Removed(s, payload) <==> x in s && x.payload != payload
    ensures multiset(Removed(s, payload)) <= multiset(s)
  {
    if s != [] {
      var first, rest := if s[0].payload == payload then [] else [s[0]], Removed(s[1..], payload);
      RemovedMembers(s[1..], payload);
      assert s == [s[0]] + s[1..];
      assert Removed(s, payload) == first + rest;
      assert multiset(first) <= multiset([s[0]]);
    }
  }

  lemma {:induction false} RemovedInOrder(s: seq<Entry>, payload: nat)
    ensures InOrder(Removed(s, payload), s)
  {
    if s != [] {
      var init, last := s[..|s| - 1], s[|s| - 1];
      RemovedInOrder(init, payload);
      RemovedMembers(init, payload);
      RemovedLast(init, last, payload);
      OneMoreInOrder(init, last, Removed(init, payload));
      assert s == init + [last];
    }
  }

  lemma {:induction false} RemovedLast(s: seq<Entry>, last: Entry, payload: nat)
    ensures Removed(s + [last], payload) == Removed(s, payload) + if last.payload == payload then [] else [last]
  {
    if s == [] {
      assert s + [last] == [last] && [last][1..] == [];
    } else {
      var t := s + [last];
      assert t[0] == s[0] && t[1..] == s[1..] + [last];
      RemovedLast(s[1..], last, payload);
      assert Removed(t, payload) == (if s[0].payload == payload then [] else [s[0]]) + Removed(t[1..], payload);
    }
  }

  lemma {:induction false} RemovedSorted(s: seq<Entry>, payload: nat)
    requires Sorted(s)
    ensures Sorted(Removed(s, payload))
  {
    if s != [] {
      RemovedMembers(s[1..], payload);
      RemovedSorted(s[1..], payload);
      assert forall x :: x in s[1..] ==> s[0].time <= x.time;
      var rest := Removed(s[1..], payload);
      assert forall i :: 0 <= i < |rest| ==> rest[i] in s[1..];
    }
  }

  lemma ErasedKeeps(s: seq<Entry>, i: nat)
    requires i < |s|
    ensures var n := s[..i] + s[i + 1..];
      && (forall x :: x in n ==> x in s) && multiset(s) == multiset(n) + multiset{s[i]}
      && (Sorted(s) ==> Sorted(n)) && (Unique(s) ==> Unique(n))
  {
    var n := s[..i] + s[i + 1..];
    assert s == s[..i] + [s[i]] + s[i + 1..];
    assert forall k :: 0 <= k < |n| ==> n[k] == s[if k < i then k else k + 1];
    assert forall e :: multiset(n)[e] <= multiset(s)[e];
  }

  lemma InsertKeeps(s: State, e: Entry)
    requires Inv(s) && Ahead(s) && e !in s.schedule && s.now <= e.time
    ensures var n := Updated(s.(schedule := Placed(s.schedule, e), accepted := s.accepted + multiset{e})); Inv(n) && Ahead(n)
  {
    hide Placed, Sorted;
    PlacedMembers(s.schedule, e);
    PlacedSorted(s.schedule, e);
    assert multiset(s.schedule)[e] == 0;
    UpdateKeeps(s.(schedule := Placed(s.schedule, e), accepted := s.accepted + multiset{e}));
  }

  lemma ScheduleKeeps(s: State, payload: nat, delta: nat)
    requires Inv(s) && Ahead(s)
    ensures Inv(Notified(s, payload, delta)) && Ahead(Notified(s, payload, delta))
  {
    hide Placed, Updated, Inv, Ahead;
    var e := Entry(s.now + delta, payload);
    if e !in s.schedule {
      InsertKeeps(s, e);
    }
  }

  lemma CancelKeeps(s: State, payload: nat)
    requires Inv(s) && Ahead(s)
    ensures Inv(Cancelled(s, payload)) && Ahead(Cancelled(s, payload))
  {
    hide Removed, Sorted, Armed;
    if s.schedule != [] {
      var left := Removed(s.schedule, payload);
      RemovedMembers(s.schedule, payload);
      RemovedSorted(s.schedule, payload);
      UpdateKeeps(s.(schedule := left, cancelled := s.cancelled + (multiset(s.schedule) - multiset(left))));
    }
  }

  lemma NothingInOrder()
    ensures InOrder<Entry>([], [])
  {
  }

  lemma NothingCancelled(s: State, payload: nat)
    requires s.schedule == []
    ensures Cancelled(s, payload) == s
  {
  }

  lemma CancelledByUpdate(s: State, payload: nat)
    requires s.schedule != []
    ensures var left := Removed(s.schedule, payload);
      Cancelled(s, payload)
      == Updated(s.(schedule := left, cancelled := s.cancelled + (multiset(s.schedule) - multiset(left))))
  {
  }

  /** What is left of the schedule, and when the event comes. */
  lemma CancelledMeans(s: State, payload: nat)
    ensures var r := Cancelled(s, payload);
      && (forall e :: e in r.schedule <==> e in s.schedule && e.payload != payload)
      && (Sorted(s.schedule) ==> Sorted(r.schedule)) && InOrder(r.schedule, s.schedule)
      && (s.schedule == [] ==> r.pending == s.pending)
      && (s.schedule != [] ==> (r.pending.Some? <==> r.schedule != []))
      && (s.schedule != [] && r.schedule != [] ==>
            r.pending.value <= r.schedule[0].time && (r.pending == s.pending || r.pending == Some(r.schedule[0].time)))
      && r.delivered == s.delivered && r.accepted == s.accepted && r.now == s.now && r.consumer == s.consumer
      && multiset(r.schedule) + r.cancelled == multiset(s.schedule) + s.cancelled
  {
    hide Removed, Sorted, InOrder;
    RemovedMembers(s.schedule, payload);
    RemovedInOrder(s.schedule, payload);
    if s.schedule == [] {
      NothingInOrder();
    }
    if Sorted(s.schedule) {
      RemovedSorted(s.schedule, payload);
    }
  }

  /** After an update the event comes no later than the first entry. */
  lemma UpdateKeeps(s: State)
    requires Sorted(s.schedule) && Unique(s.schedule) && forall e :: e in s.schedule ==> s.now <= e.time
    requires s.pending.Some? ==> s.now <= s.pending.value
    requires s.accepted == multiset(s.schedule) + s.delivered + s.cancelled
    ensures Inv(Updated(s))
  {
    if s.schedule != [] {
      assert s.schedule[0] in s.schedule;
    }
  }

  /** The event time is never in the past. */
  predicate Ahead(s: State) {
    s.pending.Some? ==> s.now <= s.pending.value
  }

  lemma TakenKeeps(s: State, i: nat)
    requires Inv(s) && Ahead(s) && i < |s.schedule| && s.schedule[i].time == s.now
    ensures Inv(Taken(s, i)) && Ahead(Taken(s, i))
  {
    ErasedKeeps(s.schedule, i);
    UpdateKeeps(s.(schedule := s.schedule[..i] + s.schedule[i + 1..], consumer := Busy,
                   delivered := s.delivered + multiset{s.schedule[i]}));
  }

  lemma FirstIsEarliest(s: State)
    requires Inv(s)
    ensures forall e :: e in s.schedule ==> s.schedule[0].time <= e.time
  {
  }

  /** A notification of the event may come: the consumer waits for it, or there is nothing to do later than now. */
  predicate Harmless(s: State) {
    s.consumer.Blocked? || s.schedule == [] || s.schedule[0].time == s.now
  }

  lemma WaitKeeps(s: State)
    requires Inv(s) && Ahead(s) && s.consumer.Busy?
    ensures Inv(Waits(s)) && Ahead(Waits(s))
  {
    hide Sorted, Unique, Taken;
    var found := FindDue(s.schedule, s.now);
    if found.Some? {
      TakenKeeps(s, found.value);
    } else if s.schedule != [] {
      assert s.schedule[0] in s.schedule;
    }
  }

  lemma FireKeeps(s: State)
    requires Inv(s) && Ahead(s) && s.pending == Some(s.now) && Harmless(s)
    ensures Inv(Next(s, Fire)) && Ahead(Next(s, Fire))
  {
    hide Sorted, Unique, Taken;
    if s.consumer.Blocked? {
      UpdateKeeps(s.(pending := None));
      if FindDue(s.schedule, s.now).Some? {
        TakenKeeps(Updated(s.(pending := None)), FindDue(s.schedule, s.now).value);
      }
    }
  }

  lemma InvKept(s: State, step: Step)
    requires Inv(s) && Ahead(s) && (step.Fire? && s.pending == Some(s.now) ==> Harmless(s))
    ensures Inv(Next(s, step)) && Ahead(Next(s, step))
  {
    hide Notified, Cancelled, Sorted, Unique, Waits, Woken;
    match step
    case Schedule(payload, delta) => ScheduleKeeps(s, payload, delta);
    case Cancel(payload) => CancelKeeps(s, payload);
    case Wait =>
      if s.consumer.Busy? {
        WaitKeeps(s);
      }
    case Fire =>
      if s.pending == Some(s.now) {
        FireKeeps(s);
      }
    case Advance(to) =>
      FirstIsEarliest(s);
  }

  /** Every notification of the event is harmless. */
  ghost predicate Disciplined(s: State, steps: seq<Step>) {
    forall i :: 0 <= i < |steps| && steps[i].Fire? && Run(s, steps[..i]).pending == Some(Run(s, steps[..i]).now) ==>
      Harmless(Run(s, steps[..i]))
  }

  lemma {:induction false} InvAlways(s: State, steps: seq<Step>)
    requires Inv(s) && Ahead(s) && Disciplined(s, steps)
    ensures Inv(Run(s, steps)) && Ahead(Run(s, steps))
  {
    hide Next, Inv, Ahead, Harmless;
    if steps != [] {
      var n := |steps| - 1;
      assert forall i :: 0 <= i < n ==> steps[..n][..i] == steps[..i];
      InvAlways(s, steps[..n]);
      InvKept(Run(s, steps[..n]), steps[n]);
    }
  }

  /** Then no entry is ever overdue, entries are unique, and what was accepted has been delivered at its time or
  cancelled, or is still scheduled. */
  lemma NothingIsLost(steps: seq<Step>)
    requires Disciplined(INITIAL, steps)
    ensures var s := Run(INITIAL, steps);
      && !Overdue(s) && Unique(s.schedule)
      && s.accepted == multiset(s.schedule) + s.delivered + s.cancelled
  {
    hide Run;
    InvAlways(INITIAL, steps);
  }

  /** Time has passed a scheduled entry. */
  ghost predicate Overdue(s: State) {
    exists e :: e in s.schedule && e.time < s.now
  }

  /** Where a notification meets a busy consumer, some disciplined run from there leaves an entry overdue exactly if
  the first entry is scheduled for later than now. */
  lemma LosesIffLaterEntry(s: State)
    requires Inv(s) && Ahead(s) && s.pending == Some(s.now) && s.consumer.Busy?
    ensures (exists more :: Disciplined(Next(s, Fire), more) && Overdue(Run(Next(s, Fire), more))) <==>
            s.schedule != [] && s.schedule[0].time != s.now
  {
    var fired := Next(s, Fire);
    if Harmless(s) {
      FireKeeps(s);
      forall more | Disciplined(fired, more) ensures !Overdue(Run(fired, more)) {
        InvAlways(fired, more);
      }
    } else {
      var more := LostEntry(s);
    }
  }

  /** So the first harmful notification of a run is the one that matters: up to it nothing is lost, and it loses an
  entry on some way to go on. */
  lemma FirstHarmLoses(steps: seq<Step>)
    requires Disciplined(INITIAL, steps)
    requires Run(INITIAL, steps).pending == Some(Run(INITIAL, steps).now)
    ensures var s := Run(INITIAL, steps);
      && !Overdue(s)
      && ((exists more :: Disciplined(Next(s, Fire), more) && Overdue(Run(Next(s, Fire), more))) <==> !Harmless(s))
  {
    hide Run, Next, Disciplined;
    InvAlways(INITIAL, steps);
    var s := Run(INITIAL, steps);
    if s.consumer.Busy? {
      LosesIffLaterEntry(s);
    } else {
      FireKeeps(s);
      forall more | Disciplined(Next(s, Fire), more) ensures !Overdue(Run(Next(s, Fire), more)) {
        InvAlways(Next(s, Fire), more);
      }
    }
  }

  lemma LostEntry(s: State) returns (more: seq<Step>)
    requires Inv(s) && s.pending == Some(s.now) && !Harmless(s)
    ensures Disciplined(Next(s, Fire), more) && Overdue(Run(Next(s, Fire), more))
  {
    var fired, wait, pass := Next(s, Fire), Wait, Advance(s.schedule[0].time + 1);
    more := [wait, pass];
    LostStep(s);
    hide Next, Overdue, Inv, Harmless;
    assert more[..1] == [wait] && [wait][..0] == [];
    assert Run(fired, []) == fired && Run(fired, [wait]) == Next(fired, wait);
  }

  lemma LostStep(s: State)
    requires Inv(s) && s.pending == Some(s.now) && !Harmless(s)
    ensures Overdue(Next(Next(Next(s, Fire), Wait), Advance(s.schedule[0].time + 1)))
  {
    hide Unique;
    assert s.schedule[0] in s.schedule;
    assert forall e :: e in s.schedule ==> s.schedule[0].time <= e.time;
  }

  /** A delivery takes an entry of the schedule whose time is now. */
  lemma DeliversOnTime(s: State, step: Step)
    requires Inv(s)
    ensures var r := Next(s, step);
      r.delivered != s.delivered ==>
        exists e :: e in s.schedule && e.time == s.now == r.now && r.delivered == s.delivered + multiset{e} && r.consumer.Busy?
  {
    var found := FindDue(s.schedule, s.now);
    if found.Some? {
      assert s.schedule[found.value] in s.schedule;
      assert Entry(s.now, s.schedule[found.value].payload) == s.schedule[found.value];
    }
  }

  lemma Extended(steps: seq<Step>, step: Step) returns (more: seq<Step>)
    ensures more == steps + [step] && Run(INITIAL, more) == Next(Run(INITIAL, steps), step)
  {
    hide Next;
    more := steps + [step];
    assert more[..|steps|] == steps;
  }

  /** If the event fires while the consumer is busy with a payload, the wakeup for the next entry is lost: the
  consumer waits again, but time passes the entry. */
  lemma BusyConsumerMissesEntry() returns (steps: seq<Step>)
    ensures Run(INITIAL, steps).schedule == [Entry(10, 2)] && Run(INITIAL, steps).now == 20
    ensures Run(INITIAL, steps).consumer.Blocked?
  {
    hide Next;
    steps := [];
    assert Run(INITIAL, steps) == INITIAL;
    steps := Extended(steps, Schedule(1, 5));
    steps := Extended(steps, Schedule(2, 10));
    steps := Extended(steps, Wait);
    TwoScheduled();
    FirstDelivered(Run(INITIAL, steps));
    steps := Extended(steps, Advance(5));
    steps := Extended(steps, Fire);
    SecondMissed(Run(INITIAL, steps));
    steps := Extended(steps, Fire);
    steps := Extended(steps, Wait);
    steps := Extended(steps, Advance(20));
  }

  lemma TwoScheduled()
    ensures var s := Next(Next(Next(INITIAL, Schedule(1, 5)), Schedule(2, 10)), Wait);
      s.schedule == [Entry(5, 1), Entry(10, 2)] && s.pending == Some(5) && s.now == 0 && s.consumer.Blocked?
  {
    PlacedLast(Entry(5, 1), Entry(10, 2));
    assert Next(INITIAL, Schedule(1, 5)).schedule == [Entry(5, 1)];
  }

  lemma FirstDelivered(s: State)
    requires s.schedule == [Entry(5, 1), Entry(10, 2)] && s.pending == Some(5) && s.now == 0 && s.consumer.Blocked?
    ensures var r := Next(Next(s, Advance(5)), Fire);
      r.schedule == [Entry(10, 2)] && r.pending == Some(5) && r.now == 5 && r.consumer.Busy?
  {
    PlacedLast(Entry(5, 1), Entry(10, 2));
  }

  lemma SecondMissed(s: State)
    requires s.schedule == [Entry(10, 2)] && s.pending == Some(5) && s.now == 5 && s.consumer.Busy?
    ensures var r := Next(Next(Next(s, Fire), Wait), Advance(20));
      r.schedule == [Entry(10, 2)] && r.now == 20 && r.consumer.Blocked?
  {
    PlacedLast(Entry(5, 1), Entry(10, 2));
  }

  lemma PlacedLast(a: Entry, b: Entry)
    requires a.time < b.time
    ensures Placed([a], b) == [a, b] && FindDue([a, b], a.time) == Some(0) && [a, b][..0] + [a, b][0 + 1..] == [b]
    ensures forall t :: t != a.time && t != b.time ==> FindDue([a, b], t) == None
    ensures forall t :: t != b.time ==> FindDue([b], t) == None
  {
    assert [a][1..] == [] && [a, b][1..] == [b];
    forall t | t != a.time && t != b.time ensures FindDue([a, b], t) == None {
      assert [a, b][0] in [a, b] && [a, b][1] in [a, b];
    }
  }

  /** The event is pending exactly if there are entries, no later than the first of them: as before or at its time. */
  predicate FollowsFirst(before: Option<nat>, after: Option<nat>, schedule: seq<Entry>) {
    if schedule == [] then after.None?
    else after.Some? && after.value <= schedule[0].time && (after == before || after.value == schedule[0].time)
  }

  /** The first entry for now is taken out, and `payload` is its payload; without any the schedule stays. */
  ghost predicate TookFirst(before: seq<Entry>, now: nat, payload: Option<nat>, after: seq<Entry>) {
    if payload.None? then after == before && forall e :: e in before ==> e.time != now
    else
      exists i :: 0 <= i < |before| && before[i] == Entry(now, payload.value)
        && (forall j :: 0 <= j < i ==> before[j].time != now) && after == before[..i] + before[i + 1..]
  }

  /** The entry stands behind all others that are not later and before those that are. */
  ghost predicate PutBehind(before: seq<Entry>, e: Entry, after: seq<Entry>) {
    exists k :: 0 <= k <= |before| && after == before[..k] + [e] + before[k..]
      && (forall i :: 0 <= i < k ==> before[i].time <= e.time) && (forall i :: k <= i < |before| ==> before[i].time > e.time)
  }

  lemma PendingFor(before: Option<nat>, after: Option<nat>, schedule: seq<Entry>)
    requires FollowsFirst(before, after, schedule) && schedule != []
    ensures after.Some?
  {
  }

  lemma NotifiedMeans(s: State, payload: nat, delta: nat)
    ensures var e := Entry(s.now + delta, payload);
      Notified(s, payload, delta) == if e in s.schedule then s
        else Updated(s.(schedule := Placed(s.schedule, e), accepted := s.accepted + multiset{e}))
  {
    hide Updated, Placed;
  }

  lemma PlacedBehind(s: seq<Entry>, e: Entry)
    requires Sorted(s)
    ensures PutBehind(s, e, Placed(s, e)) && Placed(s, e) != []
  {
    var k := UpperBound(s, e.time);
    assert Placed(s, e) == s[..k] + [e] + s[k..];
  }

  class Queue {
    var schedule: seq<Entry>
    var pending: Option<nat>
    ghost var accepted: multiset<Entry>
    ghost var delivered: multiset<Entry>
    ghost var cancelled: multiset<Entry>

    constructor ()
      ensures At(0, Busy) == INITIAL
    {
      schedule, pending := [], None;
      accepted, delivered, cancelled := multiset{}, multiset{}, multiset{};
    }

    /** The queue at a point in time with its consumer. */
    ghost function At(now: nat, consumer: Consumer): State
      reads this
    {
      State(schedule, pending, now, consumer, accepted, delivered, cancelled)
    }

    method Update(ghost now: nat, ghost c: Consumer)
      modifies this`pending
      ensures At(now, c) == Updated(old(At(now, c))) && FollowsFirst(old(pending), pending, schedule)
    {
      pending := if schedule == [] then None else Notify(pending, schedule[0].time);
    }

    /** Look for an equal entry, and for the place of a new one. */
    method Slot(e: Entry) returns (k: nat, known: bool)
      requires Sorted(schedule)
      ensures known <==> e in schedule
      ensures !known ==> k == UpperBound(schedule, e.time)
    {
      hide Sorted, UpperBound;
      k := 0;
      UpperBoundFrom(schedule, e, 0);
      while k < |schedule| && schedule[k].time <= e.time
        invariant k <= UpperBound(schedule, e.time) && forall i :: 0 <= i < k ==> schedule[i] != e
      {
        if schedule[k] == e {
          return k, true;
        }
        k := k + 1;
        UpperBoundFrom(schedule, e, k);
      }
      UpperBoundFrom(schedule, e, k);
      known := false;
    }

    /** If the payload is not yet scheduled for the time `delta` from now, it is put behind all entries that are not
    later, and the event is pending no later than the first entry. Otherwise nothing happens. */
    method NotifyAfter(now: nat, payload: nat, delta: nat, ghost c: Consumer)
      requires Sorted(schedule)
      modifies this
      ensures var e := Entry(now + delta, payload);
        if e in old(schedule) then schedule == old(schedule) && pending == old(pending) && accepted == old(accepted)
        else
          && accepted == old(accepted) + multiset{e}
          && pending.Some? && FollowsFirst(old(pending), pending, schedule)
          && PutBehind(old(schedule), e, schedule)
      ensures delivered == old(delivered) && cancelled == old(cancelled)
      ensures Sorted(schedule) && At(now, c) == Notified(old(At(now, c)), payload, delta)
    {
      hide Updated, Sorted, UpperBound, PutBehind, Notified, FollowsFirst;
      NotifiedMeans(At(now, c), payload, delta);
      var e := Entry(now + delta, payload);
      var k, known := Slot(e);
      PlacedBehind(schedule, e);
      PlacedSorted(schedule, e);
      if !known {
        schedule := schedule[..k] + [e] + schedule[k..];
        accepted := accepted + multiset{e};
        Update(now, c);
        PendingFor(old(pending), pending, schedule);
      }
    }

    /** Exactly the entries of the payload go, in the order of the others. If there were any entries at all, the event
    is pending afterwards exactly if some are left, and not later than the first of them. */
    method Cancel(now: nat, payload: nat, ghost c: Consumer)
      modifies this
      ensures forall e :: e in schedule <==> e in old(schedule) && e.payload != payload
      ensures old(Sorted(schedule)) ==> Sorted(schedule)
      ensures InOrder(schedule, old(schedule))
      ensures old(schedule) == [] ==> pending == old(pending)
      ensures old(schedule) != [] ==> (pending.Some? <==> schedule != [])
      ensures old(schedule) != [] && schedule != [] ==>
        pending.value <= schedule[0].time && (pending == old(pending) || pending == Some(schedule[0].time))
      ensures delivered == old(delivered) && accepted == old(accepted)
      ensures multiset(schedule) + cancelled == multiset(old(schedule)) + old(cancelled)
      ensures At(now, c) == Cancelled(old(At(now, c)), payload)
    {
      hide Cancelled, Updated, Removed, Sorted, InOrder;
      CancelledMeans(At(now, c), payload);
      if schedule == [] {
        NothingCancelled(At(now, c), payload);
        return;
      }
      CancelledByUpdate(At(now, c), payload);
      var left := Removed(schedule, payload);
      cancelled := cancelled + (multiset(schedule) - multiset(left));
      schedule := left;
      Update(now, c);
    }

    /** Look for an entry of the current time. */
    method Look(now: nat) returns (i: Option<nat>)
      ensures i == FindDue(schedule, now)
      ensures i.Some? ==> forall j :: 0 <= j < i.value ==> schedule[j].time != now
    {
      var k := 0;
      while k < |schedule|
        invariant k <= |schedule| && forall j :: 0 <= j < k ==> schedule[j].time != now
      {
        if schedule[k].time == now {
          FirstIsFound(Times(schedule), now, k);
          return Some(k);
        }
        k := k + 1;
      }
      FirstIsFound(Times(schedule), now, k);
      i := None;
    }

    /** One turn of wait: the payload of the first entry for now, which leaves the schedule, if there is one; else nothing
    happens and the consumer has to wait for the event. */
    method TryTake(now: nat, ghost c: Consumer) returns (payload: Option<nat>)
      modifies this
      ensures TookFirst(old(schedule), now, payload, schedule)
      ensures payload.None? ==> pending == old(pending) && delivered == old(delivered)
      ensures payload.Some? ==>
        delivered == old(delivered) + multiset{Entry(now, payload.value)} && FollowsFirst(old(pending), pending, schedule)
      ensures accepted == old(accepted) && cancelled == old(cancelled)
      ensures At(now, if payload.Some? then Busy else Blocked) == Waits(old(At(now, c)))
    {
      var i := Look(now);
      if i.None? {
        return None;
      }
      payload := Some(schedule[i.value].payload);
      delivered := delivered + multiset{Entry(now, schedule[i.value].payload)};
      schedule := schedule[..i.value] + schedule[i.value + 1..];
      Update(now, Busy);
    }

    /** The event came: look again, schedule the next notification, and take the payload if there is one. */
    method WakeUp(now: nat) returns (payload: Option<nat>)
      requires pending == Some(now)
      modifies this
      ensures TookFirst(old(schedule), now, payload, schedule)
      ensures payload.None? ==> FollowsFirst(None, pending, schedule)
      ensures payload.Some? ==> old(schedule) != [] && FollowsFirst(Some(old(schedule)[0].time), pending, schedule)
      ensures delivered == old(delivered) + if payload.Some? then multiset{Entry(now, payload.value)} else multiset{}
      ensures accepted == old(accepted) && cancelled == old(cancelled)
      ensures At(now, if payload.Some? then Busy else Blocked) == Woken(old(At(now, Blocked)))
    {
      pending := None;
      var i := Look(now);
      Update(now, Blocked);
      if i.None? {
        return None;
      }
      payload := Some(schedule[i.value].payload);
      delivered := delivered + multiset{Entry(now, schedule[i.value].payload)};
      schedule := schedule[..i.value] + schedule[i.value + 1..];
      Update(now, Busy);
    }
  }

  /** Up to which entry an insertion may be behind. */
  lemma UpperBoundFrom(s: seq<Entry>, e: Entry, k: nat)
    requires Sorted(s) && k <= |s|
    ensures k < |s| && k <= UpperBound(s, e.time) && s[k].time <= e.time ==> k + 1 <= UpperBound(s, e.time)
    ensures k <= UpperBound(s, e.time) && (k == |s| || s[k].time > e.time) ==> k == UpperBound(s, e.time)
    ensures forall i :: UpperBound(s, e.time) <= i < |s| ==> s[i] != e
  {
  }
}
