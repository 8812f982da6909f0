/** Breakpoints and watchpoints of a debug target and the resources of its processor model.

The model decides whether it grants or releases a resource and may name it with an id; zero is no id. Its answers
are parameters here.
*/
module DebugTarget {
  import opened Sequences
  import opened Wrappers

  datatype Answer = Refused | Granted(name: Option<nat>) {
    /** The id that is stored afterwards: a model that gives none leaves what was there. */
    function Id(stored: nat): nat {
      if Granted? && name.Some? then name.value else stored
    }
  }

  function Added(subscribers: seq<nat>, s: nat): (r: seq<nat>)
    ensures forall x :: x in r <==> x in subscribers || x == s
    ensures s in subscribers ==> r == subscribers
    ensures s !in subscribers ==> r == subscribers + [s]
  {
    if s in subscribers then subscribers else subscribers + [s]
  }

  function Without(subscribers: seq<nat>, s: nat): (r: seq<nat>)
    ensures forall x :: x in r <==> x in subscribers && x != s
  {
    if subscribers == [] then []
    else (if subscribers[0] == s then [] else [subscribers[0]]) + Without(subscribers[1..], s)
  }

  /** The resources that are left when the one with an id, or else the named one, is released. */
  function Released<R(==,!new)>(held: map<R, nat>, r: R, id: nat): (left: map<R, nat>)
    ensures forall x :: x in left <==> x in held && if id != 0 then held[x] != id else x != r
    ensures forall x :: x in left ==> left[x] == held[x]
  {
    if id != 0 then map x | x in held && held[x] != id :: held[x] else held - {r}
  }

  /** No two resources carry the same id. */
  ghost predicate UniqueIds<R(!new)>(held: map<R, nat>) {
    forall x, y :: x in held && y in held && held[x] == held[y] != 0 ==> x == y
  }

  predicate Unused<R(==)>(held: map<R, nat>, a: Answer) {
    a.Id(0) != 0 ==> a.Id(0) !in held.Values
  }

  // Breakpoints

  datatype Breakpoint = Breakpoint(addr: nat, id: nat, subscribers: seq<nat>)

  /** The breakpoints and the addresses at which the model holds one. */
  datatype Breaks = Breaks(list: seq<Breakpoint>, held: map<nat, nat>)

  function Addresses(list: seq<Breakpoint>): (r: seq<nat>)
    ensures |r| == |list| && forall i :: 0 <= i < |list| ==> r[i] == list[i].addr
  {
    seq(|list|, i requires 0 <= i < |list| => list[i].addr)
  }

  /** Every address has one breakpoint, exactly where the model holds one, and knows its id. */
  ghost predicate BreaksInv(b: Breaks) {
    && Distinct(Addresses(b.list))
    && (forall a :: a in b.held <==> a in Addresses(b.list))
    && (forall i :: 0 <= i < |b.list| && b.list[i].addr in b.held ==> b.held[b.list[i].addr] == b.list[i].id)
  }

  function FindBreak(list: seq<Breakpoint>, a: nat): (r: Option<nat>)
    ensures r.Some? ==> r.value < |list| && list[r.value].addr == a
    ensures r.Some? ==> forall i :: 0 <= i < r.value ==> list[i].addr != a
    ensures r.None? ==> a !in Addresses(list)
  {
    Find(Addresses(list), a)
  }

  function BreakInserted(b: Breaks, a: nat, s: nat, answer: Answer): (Breaks, bool) {
    match FindBreak(b.list, a)
    case Some(i) => (b.(list := b.list[i := b.list[i].(subscribers := Added(b.list[i].subscribers, s))]), true)
    case None =>
      if answer.Refused? then (b, false)
      else (Breaks(b.list + [Breakpoint(a, answer.Id(0), [s])], b.held[a := answer.Id(0)]), true)
  }

  function BreakRemoved(b: Breaks, a: nat, s: nat, release: bool): (Breaks, bool) {
    match FindBreak(b.list, a)
    case None => (b, false)
    case Some(i) =>
      var bp := b.list[i];
      if s !in bp.subscribers then (b, false)
      else
        var rest := bp.(subscribers := Without(bp.subscribers, s));
        if rest.subscribers != [] then (b.(list := b.list[i := rest]), true)
        else if !release then (b.(list := b.list[i := rest]), false)
        else (Breaks(Erased(b.list, i), Released(b.held, a, bp.id)), true)
  }

  /** Who is told about hits at an address. */
  function Subscribers(list: seq<Breakpoint>, a: nat): seq<nat> {
    match FindBreak(list, a) case None => [] case Some(i) => list[i].subscribers
  }

  lemma SubscribersAt(list: seq<Breakpoint>, i: nat)
    requires Distinct(Addresses(list)) && i < |list|
    ensures Subscribers(list, list[i].addr) == list[i].subscribers
  {
    assert Addresses(list)[i] == list[i].addr;
    var k := FindBreak(list, list[i].addr).value;
    assert Addresses(list)[k] == list[k].addr;
  }

  /** Lists with the same breakpoint, or none, at an address. */
  lemma SameSubscribers(l: seq<Breakpoint>, m: seq<Breakpoint>, a: nat)
    requires Distinct(Addresses(l)) && Distinct(Addresses(m))
    requires forall bp: Breakpoint :: bp.addr == a ==> (bp in l <==> bp in m)
    ensures Subscribers(l, a) == Subscribers(m, a)
  {
    assert forall k :: 0 <= k < |m| && m[k].addr == a ==> m[k] in l;
    if i :| 0 <= i < |l| && l[i].addr == a {
      assert l[i] in m;
      var k :| 0 <= k < |m| && m[k] == l[i];
      SubscribersAt(l, i);
      SubscribersAt(m, k);
    }
  }

  lemma ReplaceBreak(b: Breaks, i: nat, subscribers: seq<nat>, x: nat)
    requires BreaksInv(b) && i < |b.list|
    ensures var n := b.(list := b.list[i := b.list[i].(subscribers := subscribers)]);
      BreaksInv(n) && Subscribers(n.list, x) == if x == b.list[i].addr then subscribers else Subscribers(b.list, x)
  {
    var n := b.(list := b.list[i := b.list[i].(subscribers := subscribers)]);
    assert Addresses(n.list) == Addresses(b.list);
    if x == b.list[i].addr {
      SubscribersAt(n.list, i);
    } else {
      forall bp: Breakpoint | bp.addr == x ensures bp in n.list <==> bp in b.list {
        if bp in b.list {
          var k :| 0 <= k < |b.list| && b.list[k] == bp;
          assert n.list[k] == bp;
        }
      }
      SameSubscribers(n.list, b.list, x);
    }
  }

  lemma AppendBreak(b: Breaks, a: nat, id: nat, subscribers: seq<nat>, x: nat)
    requires BreaksInv(b) && a !in Addresses(b.list)
    ensures var n := Breaks(b.list + [Breakpoint(a, id, subscribers)], b.held[a := id]);
      BreaksInv(n) && Subscribers(n.list, x) == if x == a then subscribers else Subscribers(b.list, x)
  {
    var n := Breaks(b.list + [Breakpoint(a, id, subscribers)], b.held[a := id]);
    assert Addresses(n.list) == Addresses(b.list) + [a];
    if x == a {
      SubscribersAt(n.list, |b.list|);
    } else {
      SameSubscribers(n.list, b.list, x);
    }
  }

  function Erased(list: seq<Breakpoint>, i: nat): seq<Breakpoint>
    requires i < |list|
  {
    list[..i] + list[i + 1..]
  }

  lemma EraseFromList(list: seq<Breakpoint>, i: nat)
    requires Distinct(Addresses(list)) && i < |list|
    ensures var n := Erased(list, i);
      && Distinct(Addresses(n))
      && (forall a :: a in Addresses(n) <==> a in Addresses(list) && a != list[i].addr)
      && (forall bp :: bp in n <==> bp in list && bp != list[i])
  {
    EraseDistinct(Addresses(list), i);
    assert Addresses(Erased(list, i)) == Addresses(list)[..i] + Addresses(list)[i + 1..];
    assert forall k :: 0 <= k < |list| ==> Addresses(list)[k] == list[k].addr;
    EraseDistinct(list, i);
  }

  /** No other breakpoint has the id that breakpoint `i` is released by. */
  predicate OwnId(b: Breaks, i: nat)
    requires i < |b.list|
  {
    b.list[i].id != 0 ==> forall k :: 0 <= k < |b.list| && k != i ==> b.list[k].id != b.list[i].id
  }

  lemma EraseBreak(b: Breaks, i: nat, x: nat)
    requires BreaksInv(b) && i < |b.list|
    ensures var n := Breaks(Erased(b.list, i), Released(b.held, b.list[i].addr, b.list[i].id));
      && (BreaksInv(n) <==> OwnId(b, i))
      && Subscribers(n.list, x) == (if x == b.list[i].addr then [] else Subscribers(b.list, x))
      && (OwnId(b, i) ==> (x in n.held <==> x in b.held && x != b.list[i].addr))
  {
    EraseFromList(b.list, i);
    EraseHeld(b, i);
    hide Released, Erased, BreaksInv;
    var n := Breaks(Erased(b.list, i), Released(b.held, b.list[i].addr, b.list[i].id));
    if x != b.list[i].addr {
      hide Addresses;
      SameSubscribers(n.list, b.list, x);
    } else {
      assert x !in Addresses(n.list);
    }
  }

  lemma EraseHeld(b: Breaks, i: nat)
    requires BreaksInv(b) && i < |b.list|
    ensures Distinct(Addresses(b.list))
    ensures var n := Breaks(Erased(b.list, i), Released(b.held, b.list[i].addr, b.list[i].id));
      && (BreaksInv(n) <==> OwnId(b, i))
      && (OwnId(b, i) ==> forall x :: x in n.held <==> x in b.held && x != b.list[i].addr)
  {
    var n := Breaks(Erased(b.list, i), Released(b.held, b.list[i].addr, b.list[i].id));
    assert forall k :: 0 <= k < |b.list| ==> Addresses(b.list)[k] == b.list[k].addr;
    EraseFromList(b.list, i);
    if OwnId(b, i) {
      forall x ensures x in n.held <==> x in b.held && x != b.list[i].addr {
        if x in b.held {
          assert x in Addresses(b.list);
        }
      }
      hide Erased, Released, Addresses;
      forall k | 0 <= k < |n.list| && n.list[k].addr in n.held ensures n.held[n.list[k].addr] == n.list[k].id {
        assert n.list[k] in b.list;
      }
    } else {
      var k :| 0 <= k < |b.list| && k != i && b.list[k].id == b.list[i].id;
      assert b.list[k].addr in Addresses(n.list) && b.list[k].addr !in n.held;
    }
  }

  /** A granted or known breakpoint gains the subscriber; a refused one changes nothing. */
  lemma InsertBreakMeans(b: Breaks, a: nat, s: nat, answer: Answer, x: nat)
    requires BreaksInv(b)
    ensures var (n, ok) := BreakInserted(b, a, s, answer);
      && BreaksInv(n)
      && (ok <==> a in b.held || answer.Granted?)
      && (x in n.held <==> x in b.held || (x == a && ok))
      && Subscribers(n.list, x) == if x == a && ok then Added(Subscribers(b.list, x), s) else Subscribers(b.list, x)
  {
    match FindBreak(b.list, a)
    case Some(i) =>
      SubscribersAt(b.list, i);
      ReplaceBreak(b, i, Added(b.list[i].subscribers, s), x);
      assert Addresses(b.list)[i] == a;
    case None =>
      if answer.Granted? {
        AppendBreak(b, a, answer.Id(0), [s], x);
        assert Subscribers(b.list, a) == [];
      }
  }

  /** A removal that releases a breakpoint goes by an id that no other breakpoint has. */
  predicate RemovesOwn(b: Breaks, a: nat, s: nat, release: bool) {
    match FindBreak(b.list, a)
    case None => true
    case Some(i) =>
      s in b.list[i].subscribers && Without(b.list[i].subscribers, s) == [] && release ==> OwnId(b, i)
  }

  /** The subscriber is gone in any case; the breakpoint goes with the last one if the model releases it. Breakpoints
  and model go on to match exactly if no other breakpoint has the id of the released one. */
  lemma RemoveBreakMeans(b: Breaks, a: nat, s: nat, release: bool, x: nat)
    requires BreaksInv(b)
    ensures var (n, ok) := BreakRemoved(b, a, s, release);
      var rest := Without(Subscribers(b.list, a), s);
      && (BreaksInv(n) <==> RemovesOwn(b, a, s, release))
      && (ok <==> s in Subscribers(b.list, a) && (rest != [] || release))
      && (RemovesOwn(b, a, s, release) ==> (x in n.held <==> x in b.held && (x == a && ok ==> rest != [])))
      && Subscribers(n.list, x) == if x == a then rest else Subscribers(b.list, x)
  {
    match FindBreak(b.list, a)
    case Some(i) =>
      SubscribersAt(b.list, i);
      assert Addresses(b.list)[i] == a;
      if s in b.list[i].subscribers {
        var rest := Without(b.list[i].subscribers, s);
        hide Addresses, Released, Erased, BreaksInv, OwnId;
        ReplaceBreak(b, i, rest, x);
        EraseBreak(b, i, x);
      } else {
        NothingWithout(b.list[i].subscribers, s);
      }
    case None =>
  }

  lemma {:induction false} NothingWithout(subscribers: seq<nat>, s: nat)
    requires s !in subscribers
    ensures Without(subscribers, s) == subscribers
  {
    if subscribers != [] {
      assert subscribers[0] in subscribers;
      assert subscribers == [subscribers[0]] + subscribers[1..];
      NothingWithout(subscribers[1..], s);
    }
  }

  // Watchpoints

  datatype Range = Range(first: nat, last: nat)

  datatype Access = Access(read: bool, write: bool)

  datatype Watch = Watch(range: Range, write: bool)

  /** The read or the write half of a watchpoint: the id of its resource and its subscribers. */
  datatype Side = Side(id: nat, subscribers: seq<nat>)

  datatype Watchpoint = Watchpoint(range: Range, reading: Side, writing: Side) {
    function On(write: bool): Side {
      if write then writing else reading
    }

    function Set(write: bool, side: Side): Watchpoint {
      if write then this.(writing := side) else this.(reading := side)
    }
  }

  /** The watchpoints, the resources that the model holds, and all ids it ever gave out. */
  datatype Watches = Watches(list: seq<Watchpoint>, held: map<Watch, nat>, used: set<nat>) {
    function Sided(i: nat, write: bool, side: Side): Watches
      requires i < |list|
    {
      this.(list := list[i := list[i].Set(write, side)])
    }

    function Hold(x: Watch, id: nat): Watches {
      this.(held := held[x := id], used := used + {id})
    }

    function Drop(x: Watch, id: nat): Watches {
      this.(held := Released(held, x, id))
    }

    /** Ask the model for the resource of one half. */
    function Grant(i: nat, write: bool, answer: Answer): Watches
      requires i < |list|
    {
      var side := list[i].On(write);
      Hold(Watch(list[i].range, write), answer.Id(0)).Sided(i, write, side.(id := answer.Id(side.id)))
    }

    /** Give it back, by the id that the half has stored. */
    function Release(i: nat, write: bool): Watches
      requires i < |list|
    {
      Drop(Watch(list[i].range, write), list[i].On(write).id)
    }

    function Subscribed(i: nat, write: bool, subscribers: seq<nat>): Watches
      requires i < |list|
    {
      Sided(i, write, list[i].On(write).(subscribers := subscribers))
    }
  }

  function Ranges(list: seq<Watchpoint>): (r: seq<Range>)
    ensures |r| == |list| && forall i :: 0 <= i < |list| ==> r[i] == list[i].range
  {
    seq(|list|, i requires 0 <= i < |list| => list[i].range)
  }

  function FindWatch(list: seq<Watchpoint>, r: Range): (found: Option<nat>)
    ensures found.Some? ==> found.value < |list| && list[found.value].range == r
    ensures found.None? ==> r !in Ranges(list)
  {
    Find(Ranges(list), r)
  }

  /** A new watchpoint: what was granted is returned if the write half is refused. */
  function NewWatch(w: Watches, r: Range, a: Access, s: nat, onRead: Answer, onWrite: Answer, undo: bool)
    : (Watches, bool)
  {
    if a.read && onRead.Refused? then (w, false)
    else
      var w1 := if a.read then w.Hold(Watch(r, false), onRead.Id(0)) else w;
      if a.write && onWrite.Refused? then
        (if a.read && undo then w1.Drop(Watch(r, false), onRead.Id(0)) else w1, false)
      else
        var w2 := if a.write then w1.Hold(Watch(r, true), onWrite.Id(0)) else w1;
        var reading := if a.read then Side(onRead.Id(0), [s]) else Side(0, []);
        var writing := if a.write then Side(onWrite.Id(0), [s]) else Side(0, []);
        (w2.(list := w2.list + [Watchpoint(r, reading, writing)]), true)
  }

  /** A known watchpoint: resources are asked for halves that have no subscriber yet. */
  function MoreWatch(w: Watches, i: nat, a: Access, s: nat, onRead: Answer, onWrite: Answer, undo: bool)
    : (Watches, bool)
    requires i < |w.list|
  {
    var needRead := a.read && w.list[i].reading.subscribers == [];
    var needWrite := a.write && w.list[i].writing.subscribers == [];
    if needRead && onRead.Refused? then (w, false)
    else
      var w1 := if needRead then w.Grant(i, false, onRead) else w;
      if needWrite && onWrite.Refused? then
        var w2 := if needRead && undo then w1.Release(i, false) else w1;
        (if needRead then w2.Sided(i, false, Side(0, [])) else w2, false)
      else
        var w2 := if needWrite then w1.Grant(i, true, onWrite) else w1;
        var w3 := if a.read then w2.Subscribed(i, false, Added(w2.list[i].reading.subscribers, s)) else w2;
        (if a.write then w3.Subscribed(i, true, Added(w3.list[i].writing.subscribers, s)) else w3, true)
  }

  function WatchInserted(w: Watches, r: Range, a: Access, s: nat,
                         onRead: Answer, onWrite: Answer, undo: bool): (Watches, bool) {
    match FindWatch(w.list, r)
    case None => NewWatch(w, r, a, s, onRead, onWrite, undo)
    case Some(i) => MoreWatch(w, i, a, s, onRead, onWrite, undo)
  }

  /** Drop a subscriber of one half and, after the last one, its resource. */
  function HalfRemoved(w: Watches, i: nat, write: bool, s: nat, release: bool): (r: (Watches, bool))
    requires i < |w.list|
    ensures |r.0.list| == |w.list|
  {
    var w1 := w.Subscribed(i, write, Without(w.list[i].On(write).subscribers, s));
    if w1.list[i].On(write).subscribers != [] then (w1, true)
    else if !release then (w1, false)
    else (w1.Release(i, write), true)
  }

  function WatchRemoved(w: Watches, r: Range, a: Access, s: nat, onRead: bool, onWrite: bool): (Watches, bool) {
    match FindWatch(w.list, r)
    case None => (w, false)
    case Some(i) =>
      var (w1, ok1) := if a.read then HalfRemoved(w, i, false, s, onRead) else (w, true);
      if !ok1 then (w1, false)
      else
        var (w2, ok2) := if a.write then HalfRemoved(w1, i, true, s, onWrite) else (w1, true);
        if !ok2 then (w2, false)
        else if w2.list[i].reading.subscribers == [] && w2.list[i].writing.subscribers == []
        then (w2.(list := w2.list[..i] + w2.list[i + 1..]), true)
        else (w2, true)
  }

  /** Who is told about accesses of one kind to a range. */
  function Told(list: seq<Watchpoint>, r: Range, write: bool): seq<nat> {
    match FindWatch(list, r) case None => [] case Some(i) => list[i].On(write).subscribers
  }

  lemma ToldAt(list: seq<Watchpoint>, i: nat, write: bool)
    requires Distinct(Ranges(list)) && i < |list|
    ensures FindWatch(list, list[i].range) == Some(i)
    ensures Told(list, list[i].range, write) == list[i].On(write).subscribers
  {
    var r := Ranges(list);
    assert r[i] == list[i].range;
    assert r[FindWatch(list, list[i].range).value] == list[i].range;
  }

  /** Changing one half of a watchpoint changes who is told about that half. */
  lemma ToldSided(w: Watches, i: nat, half: bool, side: Side, x: Range, write: bool)
    requires Distinct(Ranges(w.list)) && i < |w.list|
    ensures var n := w.Sided(i, half, side);
      Ranges(n.list) == Ranges(w.list) &&
      Told(n.list, x, write) == if x == w.list[i].range && write == half then side.subscribers else Told(w.list, x, write)
  {
    var n := w.Sided(i, half, side);
    assert Ranges(n.list) == Ranges(w.list);
    ToldAt(w.list, i, write);
    var found := FindWatch(w.list, x);
    assert found.Some? && found.value == i ==> x == w.list[i].range;
  }

  lemma ToldAppended(list: seq<Watchpoint>, p: Watchpoint, x: Range, write: bool)
    requires p.range !in Ranges(list)
    ensures Told(list + [p], x, write) == if x == p.range then p.On(write).subscribers else Told(list, x, write)
  {
    assert Ranges(list + [p]) == Ranges(list) + [p.range];
    FindAppended(Ranges(list), p.range, x);
  }

  /** A watchpoint without subscribers can go without anyone noticing. */
  lemma ToldErased(list: seq<Watchpoint>, i: nat, x: Range, write: bool)
    requires Distinct(Ranges(list)) && i < |list| && list[i].reading.subscribers == [] == list[i].writing.subscribers
    ensures Told(list[..i] + list[i + 1..], x, write) == Told(list, x, write)
  {
    var n, was := list[..i] + list[i + 1..], Ranges(list);
    EraseDistinct(was, i);
    assert Ranges(n) == was[..i] + was[i + 1..];
    var found := FindWatch(list, x);
    if found.None? || found.value == i {
      ToldAt(list, i, write);
      assert x !in Ranges(n) by {
        assert was[i] == list[i].range;
      }
    } else {
      var k := found.value;
      var j := if k < i then k else k - 1;
      assert n[j] == list[k];
      ToldAt(n, j, write);
    }
  }

  predicate Asks(a: Access, write: bool) {
    if write then a.write else a.read
  }

  /** An insertion succeeds exactly if every half that is asked for has a subscriber already or is granted. It then
  adds the subscriber to these halves; a failed one changes nobody's subscription. */
  lemma InsertWatchMeans(w: Watches, r: Range, a: Access, s: nat, onRead: Answer, onWrite: Answer, undo: bool,
                         x: Range, write: bool)
    requires Distinct(Ranges(w.list))
    ensures var (n, ok) := WatchInserted(w, r, a, s, onRead, onWrite, undo);
      && (ok <==> (a.read && Told(w.list, r, false) == [] ==> onRead.Granted?)
                  && (a.write && Told(w.list, r, true) == [] ==> onWrite.Granted?))
      && Told(n.list, x, write) ==
         if ok && x == r && Asks(a, write) then Added(Told(w.list, x, write), s) else Told(w.list, x, write)
  {
    var found := FindWatch(w.list, r);
    if found.None? {
      NewWatchMeans(w, r, a, s, onRead, onWrite, undo, x, write);
    } else {
      MoreWatchMeans(w, found.value, a, s, onRead, onWrite, undo, x, write);
    }
  }

  lemma NewWatchMeans(w: Watches, r: Range, a: Access, s: nat, onRead: Answer, onWrite: Answer, undo: bool,
                      x: Range, write: bool)
    requires Distinct(Ranges(w.list)) && FindWatch(w.list, r).None?
    ensures var (n, ok) := NewWatch(w, r, a, s, onRead, onWrite, undo);
      && (ok <==> (a.read ==> onRead.Granted?) && (a.write ==> onWrite.Granted?))
      && Told(n.list, x, write) ==
         if ok && x == r && Asks(a, write) then Added(Told(w.list, x, write), s) else Told(w.list, x, write)
  {
    hide Told, FindWatch, Released;
    var reading := if a.read then Side(onRead.Id(0), [s]) else Side(0, []);
    var writing := if a.write then Side(onWrite.Id(0), [s]) else Side(0, []);
    ToldAppended(w.list, Watchpoint(r, reading, writing), x, write);
    NobodyTold(w.list, r, write);
  }

  lemma NobodyTold(list: seq<Watchpoint>, r: Range, write: bool)
    requires FindWatch(list, r).None?
    ensures Told(list, r, write) == []
  {
  }

  lemma MoreWatchMeans(w: Watches, i: nat, a: Access, s: nat, onRead: Answer, onWrite: Answer, undo: bool,
                       x: Range, write: bool)
    requires Distinct(Ranges(w.list)) && i < |w.list|
    ensures var (n, ok) := MoreWatch(w, i, a, s, onRead, onWrite, undo);
      var r := w.list[i].range;
      && (ok <==> (a.read && Told(w.list, r, false) == [] ==> onRead.Granted?)
                  && (a.write && Told(w.list, r, true) == [] ==> onWrite.Granted?))
      && Told(n.list, x, write) ==
         if ok && x == r && Asks(a, write) then Added(Told(w.list, x, write), s) else Told(w.list, x, write)
  {
    hide Told, FindWatch, Released, Ranges, Distinct, Added;
    ToldAt(w.list, i, false);
    ToldAt(w.list, i, true);
    var needRead := a.read && w.list[i].reading.subscribers == [];
    var needWrite := a.write && w.list[i].writing.subscribers == [];
    if !(needRead && onRead.Refused?) {
      var w1 := w;
      if needRead {
        ToldSided(w, i, false, Side(onRead.Id(w.list[i].reading.id), []), x, write);
        w1 := w.Grant(i, false, onRead);
        ToldSided(w1, i, false, Side(0, []), x, write);
      }
      if !(needWrite && onWrite.Refused?) {
        var w2 := w1;
        if needWrite {
          ToldSided(w1, i, true, Side(onWrite.Id(w1.list[i].writing.id), []), x, write);
          w2 := w1.Grant(i, true, onWrite);
        }
        var w3 := w2;
        if a.read {
          var side := w2.list[i].reading;
          ToldSided(w2, i, false, side.(subscribers := Added(side.subscribers, s)), x, write);
          w3 := w2.Subscribed(i, false, Added(side.subscribers, s));
        }
        if a.write {
          var side := w3.list[i].writing;
          ToldSided(w3, i, true, side.(subscribers := Added(side.subscribers, s)), x, write);
        }
      }
    }
  }

  /** A removal takes the subscriber from the halves that are asked for, the read half first; it fails exactly if the
  range is unknown or a resource that lost its last subscriber is not released, and then leaves the write half alone
  if it was the read half's. */
  lemma RemoveWatchMeans(w: Watches, r: Range, a: Access, s: nat, onRead: bool, onWrite: bool, x: Range, write: bool)
    requires Distinct(Ranges(w.list))
    ensures var (n, ok) := WatchRemoved(w, r, a, s, onRead, onWrite);
      var freed := !a.read || Without(Told(w.list, r, false), s) != [] || onRead;
      && (ok <==> r in Ranges(w.list) && freed && (a.write ==> Without(Told(w.list, r, true), s) != [] || onWrite))
      && Told(n.list, x, write) ==
         if x == r && Asks(a, write) && (write ==> freed) then Without(Told(w.list, r, write), s) else Told(w.list, x, write)
  {
    hide Told, Released, Distinct;
    var found := FindWatch(w.list, r);
    if found.None? {
      NobodyTold(w.list, r, false);
      NobodyTold(w.list, r, true);
      assert Without([], s) == [];
    } else {
      var i := found.value;
      assert Ranges(w.list)[i] == r;
      hide Ranges, FindWatch, Without;
      ToldAt(w.list, i, false);
      ToldAt(w.list, i, true);
      var w1 := w;
      if a.read {
        HalfRemovedMeans(w, i, false, s, onRead, x, write);
        w1 := HalfRemoved(w, i, false, s, onRead).0;
      }
      var w2 := w1;
      if a.write {
        HalfRemovedMeans(w1, i, true, s, onWrite, x, write);
        w2 := HalfRemoved(w1, i, true, s, onWrite).0;
      }
      if w2.list[i].reading.subscribers == [] == w2.list[i].writing.subscribers {
        ToldErased(w2.list, i, x, write);
      }
    }
  }

  lemma HalfRemovedMeans(w: Watches, i: nat, half: bool, s: nat, release: bool, x: Range, write: bool)
    requires Distinct(Ranges(w.list)) && i < |w.list|
    ensures var (n, ok) := HalfRemoved(w, i, half, s, release);
      var rest := Without(w.list[i].On(half).subscribers, s);
      && Ranges(n.list) == Ranges(w.list)
      && n.list == w.list[i := w.list[i].Set(half, w.list[i].On(half).(subscribers := rest))]
      && (ok <==> rest != [] || release)
      && Told(n.list, x, write) == if x == w.list[i].range && write == half then rest else Told(w.list, x, write)
  {
    hide Told, Released, Distinct, Ranges, Without;
    ToldSided(w, i, half, w.list[i].On(half).(subscribers := Without(w.list[i].On(half).subscribers, s)), x, write);
  }

  // Watchpoints and the model

  /** A half with subscribers has its resource. */
  ghost predicate Backed(w: Watches) {
    && Distinct(Ranges(w.list))
    && forall x: Watch :: Told(w.list, x.range, x.write) != [] ==> x in w.held
  }

  const NO_WATCHES := Watches([], map[], {})

  datatype WatchStep =
    | InsertWatch(range: Range, access: Access, s: nat, read: Answer, write: Answer, undo: bool)
    | RemoveWatch(range: Range, access: Access, s: nat, releaseRead: bool, releaseWrite: bool)

  function WatchNext(w: Watches, step: WatchStep): Watches {
    match step
    case InsertWatch(r, a, s, read, write, undo) => WatchInserted(w, r, a, s, read, write, undo).0
    case RemoveWatch(r, a, s, read, write) => WatchRemoved(w, r, a, s, read, write).0
  }

  function WatchRun(w: Watches, steps: seq<WatchStep>): Watches {
    if steps == [] then w else WatchNext(WatchRun(w, steps[..|steps| - 1]), steps[|steps| - 1])
  }

  /** The id that is stored for one half of a range. */
  function StoredId(list: seq<Watchpoint>, r: Range, write: bool): nat {
    match FindWatch(list, r) case None => 0 case Some(i) => list[i].On(write).id
  }

  function Names(id: nat): set<nat> {
    if id == 0 then {} else {id}
  }

  /** The insertion asks for the resource of a half. */
  predicate Requests(w: Watches, step: WatchStep, write: bool)
    requires step.InsertWatch?
  {
    Asks(step.access, write) && Told(w.list, step.range, write) == []
  }

  /** The removal leaves a half without subscribers. */
  predicate Empties(w: Watches, step: WatchStep, write: bool)
    requires step.RemoveWatch?
  {
    Asks(step.access, write) && Without(Told(w.list, step.range, write), step.s) == []
  }

  /** The removal comes to the write half. */
  predicate ReachesWrite(w: Watches, step: WatchStep)
    requires step.RemoveWatch?
  {
    Empties(w, step, false) ==> step.releaseRead
  }

  /** An insertion gives the read half back when the write half is refused. */
  predicate Undoes(w: Watches, step: WatchStep)
    requires step.InsertWatch?
  {
    Requests(w, step, false) && step.read.Granted? && Requests(w, step, true) && step.write.Refused? && step.undo
  }

  /** The ids by which a step gives resources back. */
  function GivenBack(w: Watches, step: WatchStep): set<nat> {
    match step
    case InsertWatch(r, _, _, read, _, _) =>
      if Undoes(w, step) then Names(read.Id(StoredId(w.list, r, false))) else {}
    case RemoveWatch(r, _, _, onRead, onWrite) =>
      (if Empties(w, step, false) && onRead then Names(StoredId(w.list, r, false)) else {}) +
      (if Empties(w, step, true) && ReachesWrite(w, step) && onWrite then Names(StoredId(w.list, r, true)) else {})
  }

  /** Those who were told about a half and still are after a step. */
  function StillTold(w: Watches, step: WatchStep, x: Watch): seq<nat> {
    var told := Told(w.list, x.range, x.write);
    if step.RemoveWatch? && x.range == step.range && Asks(step.access, x.write) && (x.write ==> ReachesWrite(w, step))
    then Without(told, step.s) else told
  }

  /** No resource whose subscribers stay is held under an id that the step gives back. */
  ghost predicate Harmless(w: Watches, step: WatchStep) {
    forall x :: x in w.held && w.held[x] in GivenBack(w, step) ==> StillTold(w, step, x) == []
  }

  lemma StoredAt(list: seq<Watchpoint>, i: nat, write: bool)
    requires Distinct(Ranges(list)) && i < |list|
    ensures StoredId(list, list[i].range, write) == list[i].On(write).id
  {
    ToldAt(list, i, write);
  }

  lemma NothingStored(list: seq<Watchpoint>, r: Range, write: bool)
    requires FindWatch(list, r).None?
    ensures StoredId(list, r, write) == 0
  {
  }

  /** What an insertion does to resources of others, and what it gets for its own. */
  lemma InsertHeld(w: Watches, step: WatchStep, x: Watch)
    requires step.InsertWatch? && Distinct(Ranges(w.list))
    ensures var (n, ok) := WatchInserted(w, step.range, step.access, step.s, step.read, step.write, step.undo);
      && (x in w.held && Told(w.list, x.range, x.write) != [] ==> (x in n.held <==> w.held[x] !in GivenBack(w, step)))
      && (ok && x.range == step.range && Requests(w, step, x.write) ==> x in n.held)
  {
    var found := FindWatch(w.list, step.range);
    hide Told, StoredId, Ranges, FindWatch;
    if found.None? {
      NobodyTold(w.list, step.range, false);
      NobodyTold(w.list, step.range, true);
      NothingStored(w.list, step.range, false);
    } else {
      ToldAt(w.list, found.value, false);
      ToldAt(w.list, found.value, true);
      StoredAt(w.list, found.value, false);
    }
  }

  lemma HalfRemovedHeld(w: Watches, i: nat, write: bool, s: nat, release: bool)
    requires i < |w.list|
    ensures var n := HalfRemoved(w, i, write, s, release).0;
      n.held == if Without(w.list[i].On(write).subscribers, s) == [] && release
                then Released(w.held, Watch(w.list[i].range, write), w.list[i].On(write).id) else w.held
  {
  }

  lemma RemoveHeld(w: Watches, step: WatchStep, x: Watch)
    requires step.RemoveWatch? && Distinct(Ranges(w.list)) && x in w.held && StillTold(w, step, x) != []
    ensures x in WatchNext(w, step).held <==> w.held[x] !in GivenBack(w, step)
  {
    var found := FindWatch(w.list, step.range);
    hide Told, StoredId, Ranges, FindWatch, HalfRemoved, Without;
    if found.None? {
      NothingStored(w.list, step.range, false);
      NothingStored(w.list, step.range, true);
    } else {
      var i := found.value;
      ToldAt(w.list, i, false);
      ToldAt(w.list, i, true);
      StoredAt(w.list, i, false);
      StoredAt(w.list, i, true);
      var w1 := w;
      if step.access.read {
        HalfRemovedMeans(w, i, false, step.s, step.releaseRead, x.range, x.write);
        HalfRemovedHeld(w, i, false, step.s, step.releaseRead);
        w1 := HalfRemoved(w, i, false, step.s, step.releaseRead).0;
      }
      if step.access.write {
        HalfRemovedMeans(w1, i, true, step.s, step.releaseWrite, x.range, x.write);
        HalfRemovedHeld(w1, i, true, step.s, step.releaseWrite);
      }
    }
  }

  /** A known watchpoint whose write half is refused after the read half was granted forgets the id of the read half,
  whether the model took the resource back or not. */
  lemma UndoneIsForgotten(w: Watches, step: WatchStep)
    requires step.InsertWatch? && Distinct(Ranges(w.list)) && step.range in Ranges(w.list)
    requires Requests(w, step, false) && step.read.Granted? && Requests(w, step, true) && step.write.Refused?
    ensures StoredId(WatchNext(w, step).list, step.range, false) == 0
  {
    var i, n := FindWatch(w.list, step.range).value, WatchNext(w, step);
    ToldAt(w.list, i, false);
    ToldAt(w.list, i, true);
    MoreRanges(w, i, step.access, step.s, step.read, step.write, step.undo);
    assert Ranges(w.list)[i] == step.range && Ranges(n.list)[i] == n.list[i].range;
    hide Told, Ranges, FindWatch, StoredId, MoreWatch, Distinct;
    ForgetsReadId(w, i, step);
    StoredAt(n.list, i, false);
  }

  lemma ForgetsReadId(w: Watches, i: nat, step: WatchStep)
    requires i < |w.list| && step.InsertWatch? && Asks(step.access, false) && Asks(step.access, true)
    requires w.list[i].reading.subscribers == [] == w.list[i].writing.subscribers
    requires step.read.Granted? && step.write.Refused?
    ensures var n := MoreWatch(w, i, step.access, step.s, step.read, step.write, step.undo).0;
      |n.list| == |w.list| && n.list[i].On(false).id == 0
  {
  }

  lemma SidedRanges(w: Watches, i: nat, half: bool, side: Side)
    requires i < |w.list|
    ensures Ranges(w.Sided(i, half, side).list) == Ranges(w.list)
  {
  }

  lemma MoreRanges(w: Watches, i: nat, a: Access, s: nat, onRead: Answer, onWrite: Answer, undo: bool)
    requires i < |w.list|
    ensures Ranges(MoreWatch(w, i, a, s, onRead, onWrite, undo).0.list) == Ranges(w.list)
  {
    hide Ranges, Released, Added;
    forall v: Watches, half, side | |v.list| == |w.list| && Ranges(v.list) == Ranges(w.list)
      ensures Ranges(v.Sided(i, half, side).list) == Ranges(w.list)
    {
      SidedRanges(v, i, half, side);
    }
  }

  lemma HalfRanges(w: Watches, i: nat, half: bool, s: nat, release: bool)
    requires i < |w.list|
    ensures Ranges(HalfRemoved(w, i, half, s, release).0.list) == Ranges(w.list)
  {
  }

  lemma ErasedRanges(list: seq<Watchpoint>, i: nat)
    requires i < |list|
    ensures Ranges(list[..i] + list[i + 1..]) == Ranges(list)[..i] + Ranges(list)[i + 1..]
  {
  }

  lemma RemovedRanges(w: Watches, r: Range, a: Access, s: nat, onRead: bool, onWrite: bool)
    ensures var n, was, found := WatchRemoved(w, r, a, s, onRead, onWrite).0, Ranges(w.list), FindWatch(w.list, r);
      Ranges(n.list) == was || (found.Some? && Ranges(n.list) == was[..found.value] + was[found.value + 1..])
  {
    hide Ranges, HalfRemoved, Without;
    var found := FindWatch(w.list, r);
    hide FindWatch;
    if found.Some? {
      var w1 := w;
      if a.read {
        HalfRanges(w, found.value, false, s, onRead);
        w1 := HalfRemoved(w, found.value, false, s, onRead).0;
      }
      var w2 := w1;
      if a.write {
        HalfRanges(w1, found.value, true, s, onWrite);
        w2 := HalfRemoved(w1, found.value, true, s, onWrite).0;
      }
      ErasedRanges(w2.list, found.value);
    }
  }

  /** A half that a removal leaves without subscribers loses its resource, if the model releases it by the id under which
  it holds it. */
  lemma EmptiedIsReleased(w: Watches, step: WatchStep, write: bool)
    requires step.RemoveWatch? && Distinct(Ranges(w.list)) && step.range in Ranges(w.list)
    requires Empties(w, step, write) && (if write then ReachesWrite(w, step) && step.releaseWrite else step.releaseRead)
    requires var x, id := Watch(step.range, write), StoredId(w.list, step.range, write);
      x in w.held ==> id == 0 || id == w.held[x]
    ensures Watch(step.range, write) !in WatchNext(w, step).held
  {
    var i := FindWatch(w.list, step.range).value;
    hide Told, StoredId, Ranges, FindWatch, HalfRemoved, Without;
    ToldAt(w.list, i, false);
    ToldAt(w.list, i, true);
    StoredAt(w.list, i, false);
    StoredAt(w.list, i, true);
    var w1 := w;
    if step.access.read {
      HalfRemovedMeans(w, i, false, step.s, step.releaseRead, step.range, write);
      HalfRemovedHeld(w, i, false, step.s, step.releaseRead);
      w1 := HalfRemoved(w, i, false, step.s, step.releaseRead).0;
    }
    if step.access.write {
      HalfRemovedMeans(w1, i, true, step.s, step.releaseWrite, step.range, write);
      HalfRemovedHeld(w1, i, true, step.s, step.releaseWrite);
    }
  }

  /** A read half that was granted is given back when the write half is refused, unless the model gave no id and an old
  one is stored. */
  lemma UndoneIsReleased(w: Watches, step: WatchStep)
    requires step.InsertWatch? && Undoes(w, step) && Distinct(Ranges(w.list))
    requires step.read.name.Some? || StoredId(w.list, step.range, false) == 0
    ensures Watch(step.range, false) !in WatchNext(w, step).held
  {
    var found := FindWatch(w.list, step.range);
    if found.Some? {
      hide Told, Ranges, FindWatch, StoredId;
      ToldAt(w.list, found.value, false);
      ToldAt(w.list, found.value, true);
      StoredAt(w.list, found.value, false);
    }
  }

  lemma RangesStay(w: Watches, step: WatchStep)
    requires Distinct(Ranges(w.list))
    ensures Distinct(Ranges(WatchNext(w, step).list))
  {
    hide Distinct, MoreWatch, WatchRemoved;
    var found := FindWatch(w.list, step.range);
    match step
    case InsertWatch(r, a, s, read, write, undo) =>
      if found.Some? {
        MoreRanges(w, found.value, a, s, read, write, undo);
      } else {
        NewRanges(w, step);
      }
    case RemoveWatch(r, a, s, read, write) =>
      RemovedRanges(w, r, a, s, read, write);
      if found.Some? {
        EraseDistinct(Ranges(w.list), found.value);
      }
  }

  lemma NewRanges(w: Watches, step: WatchStep)
    requires Distinct(Ranges(w.list)) && step.InsertWatch? && FindWatch(w.list, step.range).None?
    ensures Distinct(Ranges(WatchNext(w, step).list))
  {
    var n := WatchNext(w, step);
    assert Ranges(n.list) == Ranges(w.list) || Ranges(n.list) == Ranges(w.list) + [step.range];
  }

  lemma ToldNext(w: Watches, step: WatchStep, x: Watch)
    requires Backed(w)
    ensures var n := WatchNext(w, step);
      && (Told(n.list, x.range, x.write) != [] ==> (StillTold(w, step, x) != [] && x in w.held) || x in n.held)
      && (StillTold(w, step, x) != [] ==> Told(n.list, x.range, x.write) != [] && x in w.held)
      && (StillTold(w, step, x) != [] ==> (x in n.held <==> w.held[x] !in GivenBack(w, step)))
  {
    var told := Told(w.list, x.range, x.write);
    assert told != [] ==> x in w.held;
    assert told == [] ==> Without(told, step.s) == [];
    hide Told, Backed, Ranges, FindWatch, WatchInserted, WatchRemoved, GivenBack;
    match step
    case InsertWatch(r, a, s, read, write, undo) =>
      InsertWatchMeans(w, r, a, s, read, write, undo, x.range, x.write);
      InsertHeld(w, step, x);
    case RemoveWatch(r, a, s, read, write) =>
      RemoveWatchMeans(w, r, a, s, read, write, x.range, x.write);
      if StillTold(w, step, x) != [] {
        RemoveHeld(w, step, x);
      }
  }

  /** Whatever ids the model gives out, and whatever was stored: a step keeps all subscribed halves backed exactly if
  it gives no resource back by an id under which another one with subscribers is held. */
  lemma StepKeepsBackedIff(w: Watches, step: WatchStep)
    requires Backed(w)
    ensures Backed(WatchNext(w, step)) <==> Harmless(w, step)
  {
    RangesStay(w, step);
    var n := WatchNext(w, step);
    hide Told, Ranges, WatchNext, GivenBack, StillTold;
    forall x: Watch ensures
      && (Told(n.list, x.range, x.write) != [] ==> (StillTold(w, step, x) != [] && x in w.held) || x in n.held)
      && (StillTold(w, step, x) != [] ==> Told(n.list, x.range, x.write) != [] && x in w.held)
      && (StillTold(w, step, x) != [] ==> (x in n.held <==> w.held[x] !in GivenBack(w, step)))
    {
      ToldNext(w, step, x);
    }
  }

  lemma NoWatches()
    ensures Backed(NO_WATCHES)
  {
    assert Ranges(NO_WATCHES.list) == [];
  }

  ghost predicate BackedAlong(steps: seq<WatchStep>) {
    forall n :: 0 <= n <= |steps| ==> Backed(WatchRun(NO_WATCHES, steps[..n]))
  }

  ghost predicate HarmlessAlong(steps: seq<WatchStep>) {
    forall i :: 0 <= i < |steps| ==> Harmless(WatchRun(NO_WATCHES, steps[..i]), steps[i])
  }

  lemma LastWatchStep(steps: seq<WatchStep>)
    requires steps != []
    ensures WatchRun(NO_WATCHES, steps) == WatchNext(WatchRun(NO_WATCHES, steps[..|steps| - 1]), steps[|steps| - 1])
  {
    hide WatchNext;
  }

  lemma AlongNext(steps: seq<WatchStep>)
    requires steps != []
    ensures var init, last := steps[..|steps| - 1], steps[|steps| - 1];
      && (BackedAlong(steps) <==> BackedAlong(init) && Backed(WatchRun(NO_WATCHES, steps)))
      && (BackedAlong(init) ==> Backed(WatchRun(NO_WATCHES, init)))
      && (HarmlessAlong(steps) <==> HarmlessAlong(init) && Harmless(WatchRun(NO_WATCHES, init), last))
  {
    hide WatchRun, Backed, Harmless;
    var n := |steps| - 1;
    var init := steps[..n];
    assert steps[..n + 1] == steps && init[..n] == init;
    assert forall i :: 0 <= i <= n ==> init[..i] == steps[..i];
  }

  /** Every subscriber is backed all along a run exactly if every step of the run is harmless. */
  lemma {:induction false} RunBackedIff(steps: seq<WatchStep>)
    ensures BackedAlong(steps) <==> HarmlessAlong(steps)
  {
    if steps == [] {
      NoWatches();
    } else {
      hide *;
      var n := |steps| - 1;
      RunBackedIff(steps[..n]);
      LastWatchStep(steps);
      AlongNext(steps);
      if BackedAlong(steps[..n]) {
        StepKeepsBackedIff(WatchRun(NO_WATCHES, steps[..n]), steps[n]);
      }
    }
  }

  /** An insertion is harmless whenever the id that the read half stores is not in use. */
  lemma InsertIsHarmless(w: Watches, step: WatchStep)
    requires step.InsertWatch?
    requires var id := step.read.Id(StoredId(w.list, step.range, false)); id != 0 ==> id !in w.held.Values
    ensures Harmless(w, step)
  {
    hide Undoes, StoredId;
  }

  /** A removal is harmless whenever the stored ids of the halves that it releases are in use for these halves only. */
  lemma RemovalIsHarmless(w: Watches, step: WatchStep)
    requires step.RemoveWatch?
    requires forall x, write :: x in w.held && Empties(w, step, write) && x != Watch(step.range, write) ==>
      w.held[x] == 0 || w.held[x] != StoredId(w.list, step.range, write)
    ensures Harmless(w, step)
  {
    hide StoredId, Told, Without;
  }

  // Models that never give out an id twice

  /** A stored id that is in use names the resource of the half that stores it, and a half with subscribers stores the
  id of its resource unless that has none. */
  ghost predicate IdsMatch(w: Watches) {
    && (forall x :: x in w.held && w.held[x] != 0 ==> w.held[x] in w.used)
    && (forall i, write :: 0 <= i < |w.list| && w.list[i].On(write).id != 0 ==> w.list[i].On(write).id in w.used)
    && UniqueIds(w.held)
    && (forall i, write, x :: 0 <= i < |w.list| && x in w.held && w.held[x] != 0 && w.list[i].On(write).id == w.held[x] ==>
          x == Watch(w.list[i].range, write))
    && (forall i, write :: 0 <= i < |w.list| && w.list[i].On(write).subscribers != [] ==> KnowsId(w, i, write))
  }

  predicate KnowsId(w: Watches, i: nat, write: bool)
    requires i < |w.list|
  {
    var x := Watch(w.list[i].range, write);
    x in w.held && w.held[x] != 0 ==> w.held[x] == w.list[i].On(write).id
  }

  predicate Fresh(w: Watches, a: Answer) {
    a.Id(0) != 0 ==> a.Id(0) !in w.used
  }

  lemma GrantKeeps(w: Watches, i: nat, write: bool, answer: Answer)
    requires Distinct(Ranges(w.list)) && IdsMatch(w) && i < |w.list| && Fresh(w, answer)
    ensures IdsMatch(w.Grant(i, write, answer)) && KnowsId(w.Grant(i, write, answer), i, write)
    ensures Ranges(w.Grant(i, write, answer).list) == Ranges(w.list)
  {
    var n := w.Grant(i, write, answer);
    assert Ranges(n.list) == Ranges(w.list);
    assert forall k :: 0 <= k < |n.list| ==> Ranges(w.list)[k] == n.list[k].range;
    assert forall k, wr :: 0 <= k < |n.list| ==>
      n.list[k].On(wr) ==
      if k == i && wr == write then w.list[i].On(write).(id := answer.Id(w.list[i].On(write).id)) else w.list[k].On(wr);
  }

  lemma SubscribedKeeps(w: Watches, i: nat, write: bool, subscribers: seq<nat>)
    requires IdsMatch(w) && i < |w.list|
    requires subscribers != [] && w.list[i].On(write).subscribers == [] ==> KnowsId(w, i, write)
    ensures IdsMatch(w.Subscribed(i, write, subscribers))
    ensures Ranges(w.Subscribed(i, write, subscribers).list) == Ranges(w.list)
  {
    var n := w.Subscribed(i, write, subscribers);
    assert forall k, wr :: 0 <= k < |n.list| ==>
      n.list[k].On(wr).id == w.list[k].On(wr).id && n.list[k].range == w.list[k].range;
    assert forall k, wr :: 0 <= k < |n.list| && (k != i || wr != write) ==> n.list[k].On(wr) == w.list[k].On(wr);
    assert Ranges(n.list) == Ranges(w.list);
  }

  lemma ReleaseKeeps(w: Watches, i: nat, write: bool)
    requires IdsMatch(w) && i < |w.list|
    ensures IdsMatch(w.Release(i, write))
  {
  }

  lemma HoldKeeps(w: Watches, x: Watch, answer: Answer)
    requires IdsMatch(w) && x.range !in Ranges(w.list) && Fresh(w, answer)
    ensures IdsMatch(w.Hold(x, answer.Id(0)))
  {
    assert forall k :: 0 <= k < |w.list| ==> Ranges(w.list)[k] == w.list[k].range;
  }

  lemma DropKeeps(w: Watches, x: Watch, id: nat)
    requires IdsMatch(w)
    ensures IdsMatch(w.Drop(x, id))
  {
  }

  lemma AppendKeeps(w: Watches, p: Watchpoint)
    requires IdsMatch(w)
    requires forall write :: p.On(write) != Side(0, []) ==>
      Watch(p.range, write) in w.held && w.held[Watch(p.range, write)] == p.On(write).id
    ensures IdsMatch(w.(list := w.list + [p]))
  {
    forall write | p.On(write).id != 0 ensures p.On(write).id in w.used {
      assert Watch(p.range, write) in w.held;
    }
  }

  lemma EraseKeeps(w: Watches, i: nat)
    requires IdsMatch(w) && i < |w.list|
    ensures IdsMatch(w.(list := w.list[..i] + w.list[i + 1..]))
  {
    var n := w.(list := w.list[..i] + w.list[i + 1..]);
    assert forall k :: 0 <= k < |n.list| ==> n.list[k] == w.list[if k < i then k else k + 1];
    forall k, write | 0 <= k < |n.list| && n.list[k].On(write).subscribers != [] ensures KnowsId(n, k, write) {
      assert KnowsId(w, if k < i then k else k + 1, write);
    }
  }

  lemma ClearKeeps(w: Watches, i: nat, write: bool)
    requires IdsMatch(w) && i < |w.list|
    ensures IdsMatch(w.Sided(i, write, Side(0, [])))
  {
    var n := w.Sided(i, write, Side(0, []));
    assert forall k, wr :: 0 <= k < |n.list| ==>
      n.list[k].On(wr) == if k == i && wr == write then Side(0, []) else w.list[k].On(wr);
  }

  lemma HalfRemovedKeeps(w: Watches, i: nat, write: bool, s: nat, release: bool)
    requires IdsMatch(w) && i < |w.list|
    ensures IdsMatch(HalfRemoved(w, i, write, s, release).0)
  {
    hide IdsMatch, Watches.Release, Without;
    var rest := Without(w.list[i].On(write).subscribers, s);
    if rest != [] {
      assert rest[0] in w.list[i].On(write).subscribers;
    }
    SubscribedKeeps(w, i, write, rest);
    if rest == [] && release {
      ReleaseKeeps(w.Subscribed(i, write, rest), i, write);
    }
  }

  lemma RemoveWatchKeeps(w: Watches, r: Range, a: Access, s: nat, onRead: bool, onWrite: bool)
    requires IdsMatch(w)
    ensures IdsMatch(WatchRemoved(w, r, a, s, onRead, onWrite).0)
  {
    hide IdsMatch, HalfRemoved, Ranges;
    match FindWatch(w.list, r)
    case None =>
    case Some(i) =>
      var w1 := w;
      if a.read {
        HalfRemovedKeeps(w, i, false, s, onRead);
        w1 := HalfRemoved(w, i, false, s, onRead).0;
      }
      var w2 := w1;
      if a.write {
        HalfRemovedKeeps(w1, i, true, s, onWrite);
        w2 := HalfRemoved(w1, i, true, s, onWrite).0;
      }
      EraseKeeps(w2, i);
  }

  lemma NewWatchKeeps(w: Watches, r: Range, a: Access, s: nat, onRead: Answer, onWrite: Answer, undo: bool)
    requires IdsMatch(w) && r !in Ranges(w.list) && Fresh(w, onRead) && Fresh(w, onWrite)
    requires onRead.Id(0) != 0 ==> onRead.Id(0) != onWrite.Id(0)
    ensures IdsMatch(NewWatch(w, r, a, s, onRead, onWrite, undo).0)
  {
    hide IdsMatch, Ranges;
    if !(a.read && onRead.Refused?) {
      var w1 := w;
      if a.read {
        HoldKeeps(w, Watch(r, false), onRead);
        w1 := w.Hold(Watch(r, false), onRead.Id(0));
        DropKeeps(w1, Watch(r, false), onRead.Id(0));
      }
      if !(a.write && onWrite.Refused?) {
        var w2 := w1;
        if a.write {
          HoldKeeps(w1, Watch(r, true), onWrite);
          w2 := w1.Hold(Watch(r, true), onWrite.Id(0));
        }
        var reading := if a.read then Side(onRead.Id(0), [s]) else Side(0, []);
        var writing := if a.write then Side(onWrite.Id(0), [s]) else Side(0, []);
        AppendKeeps(w2, Watchpoint(r, reading, writing));
      }
    }
  }

  lemma MoreWatchKeeps(w: Watches, i: nat, a: Access, s: nat, onRead: Answer, onWrite: Answer, undo: bool)
    requires Distinct(Ranges(w.list)) && IdsMatch(w) && i < |w.list| && Fresh(w, onRead) && Fresh(w, onWrite)
    requires onRead.Id(0) != 0 ==> onRead.Id(0) != onWrite.Id(0)
    ensures IdsMatch(MoreWatch(w, i, a, s, onRead, onWrite, undo).0)
  {
    hide IdsMatch, Added, KnowsId, Ranges, Distinct;
    var needRead := a.read && w.list[i].reading.subscribers == [];
    var needWrite := a.write && w.list[i].writing.subscribers == [];
    if !(needRead && onRead.Refused?) {
      var w1 := w;
      if needRead {
        GrantKeeps(w, i, false, onRead);
        w1 := w.Grant(i, false, onRead);
        ReleaseKeeps(w1, i, false);
        ClearKeeps(w1.Release(i, false), i, false);
        ClearKeeps(w1, i, false);
      }
      if !(needWrite && onWrite.Refused?) {
        var w2 := w1;
        if needWrite {
          GrantKeeps(w1, i, true, onWrite);
          w2 := w1.Grant(i, true, onWrite);
          OtherHalf(w1, i, onWrite);
        }
        var w3 := w2;
        if a.read {
          var side := w2.list[i].reading;
          SubscribedKeeps(w2, i, false, Added(side.subscribers, s));
          w3 := w2.Subscribed(i, false, Added(side.subscribers, s));
          OtherSubscribed(w2, i, Added(side.subscribers, s));
        }
        if a.write {
          SubscribedKeeps(w3, i, true, Added(w3.list[i].writing.subscribers, s));
        }
      }
    }
  }

  /** The write half leaves the read half alone, and the other way round. */
  lemma OtherHalf(w: Watches, i: nat, answer: Answer)
    requires i < |w.list|
    ensures KnowsId(w, i, false) ==> KnowsId(w.Grant(i, true, answer), i, false)
  {
  }

  lemma OtherSubscribed(w: Watches, i: nat, subscribers: seq<nat>)
    requires i < |w.list|
    ensures KnowsId(w, i, true) ==> KnowsId(w.Subscribed(i, false, subscribers), i, true)
  {
  }

  /** The model never gives out an id twice. */
  predicate GivesFreshIds(w: Watches, step: WatchStep) {
    step.InsertWatch? ==>
      && Fresh(w, step.read) && Fresh(w, step.write)
      && (step.read.Id(0) != 0 ==> step.read.Id(0) != step.write.Id(0))
  }

  lemma WatchStepKeeps(w: Watches, step: WatchStep)
    requires Distinct(Ranges(w.list)) && IdsMatch(w) && GivesFreshIds(w, step)
    ensures IdsMatch(WatchNext(w, step))
  {
    hide IdsMatch, Fresh, NewWatch, MoreWatch, WatchRemoved;
    match step
    case InsertWatch(r, a, s, read, write, undo) =>
      var found := FindWatch(w.list, r);
      if found.None? {
        NewWatchKeeps(w, r, a, s, read, write, undo);
      } else {
        MoreWatchKeeps(w, found.value, a, s, read, write, undo);
      }
    case RemoveWatch(r, a, s, read, write) => RemoveWatchKeeps(w, r, a, s, read, write);
  }

  lemma StoredIdIsOwn(w: Watches, r: Range, write: bool, x: Watch)
    requires IdsMatch(w) && x in w.held && w.held[x] == StoredId(w.list, r, write) != 0
    ensures x == Watch(r, write)
  {
  }

  lemma FreshIdsAreHarmless(w: Watches, step: WatchStep)
    requires IdsMatch(w) && GivesFreshIds(w, step)
    ensures Harmless(w, step)
  {
    assert forall x :: x in w.held && w.held[x] != 0 ==> w.held[x] in w.used;
    hide IdsMatch, StoredId, Told, Without;
    forall x | x in w.held && w.held[x] in GivenBack(w, step) ensures StillTold(w, step, x) == [] {
      if w.held[x] == StoredId(w.list, step.range, false) {
        StoredIdIsOwn(w, step.range, false, x);
      } else if w.held[x] == StoredId(w.list, step.range, true) {
        StoredIdIsOwn(w, step.range, true, x);
      }
    }
  }

  /** Over any run with a model that never gives out an id twice, refused requests included, ranges are unique and every
  subscribed half has its resource. */
  lemma {:induction false} SubscribersAreBacked(steps: seq<WatchStep>)
    requires forall i :: 0 <= i < |steps| ==> GivesFreshIds(WatchRun(NO_WATCHES, steps[..i]), steps[i])
    ensures Backed(WatchRun(NO_WATCHES, steps)) && IdsMatch(WatchRun(NO_WATCHES, steps))
  {
    if steps == [] {
      NoWatches();
    } else {
      hide WatchNext, GivesFreshIds, IdsMatch, Harmless;
      var n := |steps| - 1;
      assert forall i :: 0 <= i < n ==> steps[..n][..i] == steps[..i];
      SubscribersAreBacked(steps[..n]);
      var w := WatchRun(NO_WATCHES, steps[..n]);
      WatchStepKeeps(w, steps[n]);
      FreshIdsAreHarmless(w, steps[n]);
      StepKeepsBackedIff(w, steps[n]);
    }
  }

  /** With an id that is given out again after its release, removing a half that has no subscriber any more takes
  the resource of another watchpoint away. */
  lemma ReusedIdTakesResourceAway(a: Range, b: Range) returns (steps: seq<WatchStep>, last: WatchStep)
    requires a != b
    ensures last.RemoveWatch?
    ensures forall i :: 0 <= i < |steps| && steps[i].InsertWatch? ==>
      && Unused(WatchRun(NO_WATCHES, steps[..i]).held, steps[i].read)
      && Unused(WatchRun(NO_WATCHES, steps[..i]).held, steps[i].write)
    ensures Backed(WatchRun(NO_WATCHES, steps)) && !Backed(WatchNext(WatchRun(NO_WATCHES, steps), last))
  {
    steps, last := [ReuseStep(a, b, 0), ReuseStep(a, b, 1), ReuseStep(a, b, 2)], ReuseStep(a, b, 3);
    assert steps[..1] == [steps[0]] && steps[..2] == [steps[0], steps[1]] && steps[..2][..1] == steps[..1];
    FirstReuseStep(a, b);
    SecondReuseStep(a, b);
    ThirdReuseStep(a, b);
    LastReuseStep(a, b);
    UnusedThen(a, b);
    hide WatchNext, Backed, ReuseState, ReuseStep, Unused;
    assert WatchRun(NO_WATCHES, steps[..0]) == NO_WATCHES;
    assert WatchRun(NO_WATCHES, steps[..1]) == ReuseState(a, b, 1);
    assert WatchRun(NO_WATCHES, steps[..2]) == ReuseState(a, b, 2);
  }

  lemma UnusedThen(a: Range, b: Range)
    ensures ReuseStep(a, b, 0).InsertWatch? && ReuseStep(a, b, 1).RemoveWatch?
    ensures ReuseStep(a, b, 2).InsertWatch? && ReuseStep(a, b, 3).RemoveWatch?
    ensures Unused(NO_WATCHES.held, ReuseStep(a, b, 0).read) && Unused(NO_WATCHES.held, ReuseStep(a, b, 0).write)
    ensures Unused(ReuseState(a, b, 2).held, ReuseStep(a, b, 2).read)
    ensures Unused(ReuseState(a, b, 2).held, ReuseStep(a, b, 2).write)
  {
  }

  function ReuseStep(a: Range, b: Range, i: nat): WatchStep {
    if i == 0 then InsertWatch(a, Access(true, true), 1, Granted(Some(1)), Granted(Some(2)), true)
    else if i == 1 then RemoveWatch(a, Access(true, false), 1, true, true)
    else if i == 2 then InsertWatch(b, Access(true, false), 2, Granted(Some(1)), Refused, true)
    else RemoveWatch(a, Access(true, true), 1, true, true)
  }

  function ReuseState(a: Range, b: Range, i: nat): Watches {
    var left := Watchpoint(a, Side(1, []), Side(2, [1]));
    if i == 0 then NO_WATCHES
    else if i == 1 then
      Watches([Watchpoint(a, Side(1, [1]), Side(2, [1]))], map[Watch(a, false) := 1, Watch(a, true) := 2], {1, 2})
    else if i == 2 then Watches([left], map[Watch(a, true) := 2], {1, 2})
    else
      Watches([left, Watchpoint(b, Side(1, [2]), Side(0, []))], map[Watch(a, true) := 2, Watch(b, false) := 1], {1, 2})
  }

  lemma FirstReuseStep(a: Range, b: Range)
    ensures WatchNext(NO_WATCHES, ReuseStep(a, b, 0)) == ReuseState(a, b, 1)
  {
    hide Released, Find;
    assert Ranges(NO_WATCHES.list) == [];
  }

  lemma SecondReuseStep(a: Range, b: Range)
    ensures WatchNext(ReuseState(a, b, 1), ReuseStep(a, b, 1)) == ReuseState(a, b, 2)
  {
    var w := ReuseState(a, b, 1);
    assert Ranges(w.list) == [a];
    assert Released(w.held, Watch(a, false), 1) == map[Watch(a, true) := 2];
    assert w.list[0].reading.subscribers[1..] == [];
    assert Without(w.list[0].reading.subscribers, 1) == [];
    assert HalfRemoved(w, 0, false, 1, true).0.list == ReuseState(a, b, 2).list;
    assert HalfRemoved(w, 0, false, 1, true).0.held == ReuseState(a, b, 2).held;
    assert HalfRemoved(w, 0, false, 1, true) == (ReuseState(a, b, 2), true);
    hide HalfRemoved;
  }

  lemma ThirdReuseStep(a: Range, b: Range)
    requires a != b
    ensures WatchNext(ReuseState(a, b, 2), ReuseStep(a, b, 2)) == ReuseState(a, b, 3) && Backed(ReuseState(a, b, 3))
  {
    assert Ranges(ReuseState(a, b, 2).list) == [a] && Ranges(ReuseState(a, b, 3).list) == [a, b];
  }

  lemma LastReuseStep(a: Range, b: Range)
    ensures !Backed(WatchNext(ReuseState(a, b, 3), ReuseStep(a, b, 3)))
  {
    var w := ReuseState(a, b, 3);
    assert Ranges(w.list) == [a, b];
    var half := HalfRemoved(w, 0, false, 1, true).0;
    assert half.held == map[Watch(a, true) := 2] && half.list == w.list;
    var rest := HalfRemoved(half, 0, true, 1, true).0;
    assert rest.held == map[] && rest.list[1] == w.list[1] && rest.list[0].writing.subscribers == [];
    hide HalfRemoved;
    var n := WatchNext(w, ReuseStep(a, b, 3));
    assert n.list == [w.list[1]] && n.list[0].On(false).subscribers != [];
  }

  datatype BreakStep = InsertBreak(addr: nat, s: nat, answer: Answer) | RemoveBreak(addr: nat, s: nat, release: bool)

  function BreakNext(b: Breaks, step: BreakStep): Breaks {
    match step
    case InsertBreak(a, s, answer) => BreakInserted(b, a, s, answer).0
    case RemoveBreak(a, s, release) => BreakRemoved(b, a, s, release).0
  }

  function BreakRun(b: Breaks, steps: seq<BreakStep>): Breaks {
    if steps == [] then b else BreakNext(BreakRun(b, steps[..|steps| - 1]), steps[|steps| - 1])
  }

  const NO_BREAKS := Breaks([], map[])

  predicate BreakHarmless(b: Breaks, step: BreakStep) {
    step.RemoveBreak? ==> RemovesOwn(b, step.addr, step.s, step.release)
  }

  lemma BreakStepIff(b: Breaks, step: BreakStep)
    requires BreaksInv(b)
    ensures BreaksInv(BreakNext(b, step)) <==> BreakHarmless(b, step)
  {
    hide BreakInserted, BreakRemoved, RemovesOwn, BreaksInv;
    match step
    case InsertBreak(a, s, answer) => InsertBreakMeans(b, a, s, answer, 0);
    case RemoveBreak(a, s, release) => RemoveBreakMeans(b, a, s, release, 0);
  }

  ghost predicate MatchAlong(steps: seq<BreakStep>) {
    forall n :: 0 <= n <= |steps| ==> BreaksInv(BreakRun(NO_BREAKS, steps[..n]))
  }

  ghost predicate RemovesOwnAlong(steps: seq<BreakStep>) {
    forall i :: 0 <= i < |steps| ==> BreakHarmless(BreakRun(NO_BREAKS, steps[..i]), steps[i])
  }

  lemma BreaksAlongNext(steps: seq<BreakStep>)
    requires steps != []
    ensures var init, last := steps[..|steps| - 1], steps[|steps| - 1];
      && (MatchAlong(steps) <==> MatchAlong(init) && BreaksInv(BreakRun(NO_BREAKS, steps)))
      && (MatchAlong(init) ==> BreaksInv(BreakRun(NO_BREAKS, init)))
      && (RemovesOwnAlong(steps) <==> RemovesOwnAlong(init) && BreakHarmless(BreakRun(NO_BREAKS, init), last))
  {
    hide BreakRun, BreaksInv, BreakHarmless;
    var n := |steps| - 1;
    var init := steps[..n];
    assert steps[..n + 1] == steps && init[..n] == init;
    assert forall i :: 0 <= i <= n ==> init[..i] == steps[..i];
  }

  /** Whatever ids the model gives out: breakpoints and model match all along a run exactly if no step of it releases
  a breakpoint by an id that another one has. */
  lemma {:induction false} BreaksMatchIff(steps: seq<BreakStep>)
    ensures MatchAlong(steps) <==> RemovesOwnAlong(steps)
  {
    if steps == [] {
      NoBreaks();
    } else {
      hide BreakNext, BreaksInv, BreakHarmless, MatchAlong, RemovesOwnAlong;
      var n := |steps| - 1;
      BreaksMatchIff(steps[..n]);
      BreaksAlongNext(steps);
      if MatchAlong(steps[..n]) {
        BreakStepIff(BreakRun(NO_BREAKS, steps[..n]), steps[n]);
      }
    }
  }

  lemma NoBreaks()
    ensures BreaksInv(NO_BREAKS)
  {
    assert Addresses(NO_BREAKS.list) == [];
  }

  lemma UniqueKept(b: Breaks, step: BreakStep)
    requires BreaksInv(b) && UniqueIds(b.held) && (step.InsertBreak? ==> Unused(b.held, step.answer))
    ensures BreakHarmless(b, step) && UniqueIds(BreakNext(b, step).held)
  {
    assert forall k :: 0 <= k < |b.list| ==> b.list[k].addr == Addresses(b.list)[k];
  }

  /** Over any run, refused requests included, breakpoints are unique and are those that the model holds, if the model
  names no two of them at a time alike. */
  lemma {:induction false} BreakpointsMatchModel(steps: seq<BreakStep>)
    requires forall i :: 0 <= i < |steps| && steps[i].InsertBreak? ==>
      Unused(BreakRun(NO_BREAKS, steps[..i]).held, steps[i].answer)
    ensures BreaksInv(BreakRun(NO_BREAKS, steps)) && UniqueIds(BreakRun(NO_BREAKS, steps).held)
  {
    hide BreakNext, BreaksInv, BreakHarmless;
    if steps == [] {
      NoBreaks();
    } else {
      var n := |steps| - 1;
      assert forall i :: 0 <= i < n ==> steps[..n][..i] == steps[..i];
      BreakpointsMatchModel(steps[..n]);
      UniqueKept(BreakRun(NO_BREAKS, steps[..n]), steps[n]);
      BreakStepIff(BreakRun(NO_BREAKS, steps[..n]), steps[n]);
    }
  }

  // The target

  class Target {
    var breakpoints: seq<Breakpoint>
    var breaksHeld: map<nat, nat>
    var watchpoints: seq<Watchpoint>
    var watchesHeld: map<Watch, nat>
    ghost var used: set<nat>

    ghost function BreakState(): Breaks
      reads this
    {
      Breaks(breakpoints, breaksHeld)
    }

    ghost function WatchState(): Watches
      reads this
    {
      Watches(watchpoints, watchesHeld, used)
    }

    constructor ()
      ensures BreakState() == NO_BREAKS && WatchState() == NO_WATCHES
    {
      breakpoints, breaksHeld, watchpoints, watchesHeld, used := [], map[], [], map[], {};
    }

    method LookupBreakpoint(a: nat) returns (found: Option<nat>)
      ensures found == FindBreak(breakpoints, a)
    {
      var i := 0;
      while i < |breakpoints|
        invariant i <= |breakpoints| && forall k :: 0 <= k < i ==> breakpoints[k].addr != a
      {
        if breakpoints[i].addr == a {
          FirstIsFound(Addresses(breakpoints), a, i);
          return Some(i);
        }
        i := i + 1;
      }
      FirstIsFound(Addresses(breakpoints), a, i);
      found := None;
    }

    method InsertBreakpoint(a: nat, s: nat, answer: Answer) returns (ok: bool)
      modifies this`breakpoints, this`breaksHeld
      ensures (BreakState(), ok) == BreakInserted(old(BreakState()), a, s, answer)
    {
      var found := LookupBreakpoint(a);
      if found.Some? {
        var bp := breakpoints[found.value];
        breakpoints := breakpoints[found.value := bp.(subscribers := Added(bp.subscribers, s))];
        return true;
      }
      if answer.Refused? {
        return false;
      }
      breaksHeld := breaksHeld[a := answer.Id(0)];
      breakpoints := breakpoints + [Breakpoint(a, answer.Id(0), [s])];
      ok := true;
    }

    method RemoveBreakpoint(a: nat, s: nat, release: bool) returns (ok: bool)
      modifies this`breakpoints, this`breaksHeld
      ensures (BreakState(), ok) == BreakRemoved(old(BreakState()), a, s, release)
    {
      var found := LookupBreakpoint(a);
      if found.None? {
        return false;
      }
      var i, bp := found.value, breakpoints[found.value];
      if s !in bp.subscribers {
        return false;
      }
      var rest := Without(bp.subscribers, s);
      if rest != [] || !release {
        breakpoints := breakpoints[i := bp.(subscribers := rest)];
        return rest != [];
      }
      breaksHeld := Released(breaksHeld, a, bp.id);
      breakpoints := Erased(breakpoints, i);
      ok := true;
    }

    method LookupWatchpoint(r: Range) returns (found: Option<nat>)
      ensures found == FindWatch(watchpoints, r)
    {
      var i := 0;
      while i < |watchpoints|
        invariant i <= |watchpoints| && forall k :: 0 <= k < i ==> watchpoints[k].range != r
      {
        if watchpoints[i].range == r {
          FirstIsFound(Ranges(watchpoints), r, i);
          return Some(i);
        }
        i := i + 1;
      }
      FirstIsFound(Ranges(watchpoints), r, i);
      found := None;
    }

    method GrantHalf(i: nat, write: bool, answer: Answer)
      requires i < |watchpoints|
      modifies this`watchpoints, this`watchesHeld, this`used
      ensures WatchState() == old(WatchState()).Grant(i, write, answer)
    {
      var wp := watchpoints[i];
      HoldWatch(Watch(wp.range, write), answer.Id(0));
      watchpoints := watchpoints[i := wp.Set(write, wp.On(write).(id := answer.Id(wp.On(write).id)))];
    }

    method HoldWatch(x: Watch, id: nat)
      modifies this`watchesHeld, this`used
      ensures WatchState() == old(WatchState()).Hold(x, id)
    {
      watchesHeld := watchesHeld[x := id];
      used := used + {id};
    }

    method Subscribe(i: nat, write: bool, s: nat)
      requires i < |watchpoints|
      modifies this`watchpoints
      ensures WatchState() == old(WatchState()).Subscribed(i, write, Added(old(watchpoints)[i].On(write).subscribers, s))
    {
      var wp := watchpoints[i];
      watchpoints := watchpoints[i := wp.Set(write, wp.On(write).(subscribers := Added(wp.On(write).subscribers, s)))];
    }

    method ReleaseHalf(i: nat, write: bool)
      requires i < |watchpoints|
      modifies this`watchesHeld
      ensures WatchState() == old(WatchState()).Release(i, write)
    {
      watchesHeld := Released(watchesHeld, Watch(watchpoints[i].range, write), watchpoints[i].On(write).id);
    }

    method InsertWatchpoint(r: Range, a: Access, s: nat, onRead: Answer, onWrite: Answer, undo: bool) returns (ok: bool)
      modifies this`watchpoints, this`watchesHeld, this`used
      ensures (WatchState(), ok) == WatchInserted(old(WatchState()), r, a, s, onRead, onWrite, undo)
    {
      var found := LookupWatchpoint(r);
      if found.None? {
        ok := AddWatchpoint(r, a, s, onRead, onWrite, undo);
      } else {
        ok := ExtendWatchpoint(found.value, a, s, onRead, onWrite, undo);
      }
    }

    method AddWatchpoint(r: Range, a: Access, s: nat, onRead: Answer, onWrite: Answer, undo: bool) returns (ok: bool)
      modifies this`watchpoints, this`watchesHeld, this`used
      ensures (WatchState(), ok) == NewWatch(old(WatchState()), r, a, s, onRead, onWrite, undo)
    {
      hide Watches.Hold, Released;
      var reading, writing := Side(0, []), Side(0, []);
      if a.read {
        if onRead.Refused? {
          return false;
        }
        HoldWatch(Watch(r, false), onRead.Id(0));
        reading := Side(onRead.Id(0), [s]);
      }
      if a.write {
        if onWrite.Refused? {
          if a.read && undo {
            watchesHeld := Released(watchesHeld, Watch(r, false), onRead.Id(0));
          }
          return false;
        }
        HoldWatch(Watch(r, true), onWrite.Id(0));
        writing := Side(onWrite.Id(0), [s]);
      }
      watchpoints := watchpoints + [Watchpoint(r, reading, writing)];
      ok := true;
    }

    method ExtendWatchpoint(i: nat, a: Access, s: nat, onRead: Answer, onWrite: Answer, undo: bool) returns (ok: bool)
      requires i < |watchpoints|
      modifies this`watchpoints, this`watchesHeld, this`used
      ensures (WatchState(), ok) == MoreWatch(old(WatchState()), i, a, s, onRead, onWrite, undo)
    {
      hide Added, Released;
      if a.read && watchpoints[i].reading.subscribers == [] {
        if onRead.Refused? {
          return false;
        }
        GrantHalf(i, false, onRead);
      }
      if a.write && watchpoints[i].writing.subscribers == [] {
        if onWrite.Refused? {
          if a.read && watchpoints[i].reading.subscribers == [] {
            if undo {
              ReleaseHalf(i, false);
            }
            watchpoints := watchpoints[i := watchpoints[i].Set(false, Side(0, []))];
          }
          return false;
        }
        GrantHalf(i, true, onWrite);
      }
      if a.read {
        Subscribe(i, false, s);
      }
      if a.write {
        Subscribe(i, true, s);
      }
      ok := true;
    }

    method RemoveHalf(i: nat, write: bool, s: nat, release: bool) returns (ok: bool)
      requires i < |watchpoints|
      modifies this`watchpoints, this`watchesHeld
      ensures (WatchState(), ok) == HalfRemoved(old(WatchState()), i, write, s, release)
      ensures |watchpoints| == old(|watchpoints|)
    {
      var wp := watchpoints[i];
      var rest := Without(wp.On(write).subscribers, s);
      watchpoints := watchpoints[i := wp.Set(write, wp.On(write).(subscribers := rest))];
      if rest == [] {
        if !release {
          return false;
        }
        ReleaseHalf(i, write);
      }
      ok := true;
    }

    method RemoveWatchpoint(r: Range, a: Access, s: nat, onRead: bool, onWrite: bool) returns (ok: bool)
      modifies this`watchpoints, this`watchesHeld
      ensures (WatchState(), ok) == WatchRemoved(old(WatchState()), r, a, s, onRead, onWrite)
    {
      hide HalfRemoved;
      var found := LookupWatchpoint(r);
      if found.None? {
        return false;
      }
      var i := found.value;
      if a.read {
        var released := RemoveHalf(i, false, s, onRead);
        if !released {
          return false;
        }
      }
      if a.write {
        var released := RemoveHalf(i, true, s, onWrite);
        if !released {
          return false;
        }
      }
      if watchpoints[i].reading.subscribers == [] && watchpoints[i].writing.subscribers == [] {
        watchpoints := watchpoints[..i] + watchpoints[i + 1..];
      }
      ok := true;
    }
  }
}
