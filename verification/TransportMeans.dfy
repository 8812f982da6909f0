/** What accesses and transports mean without following registers, pulses and bytes one by one. */
module TransportMeans {
  import opened ByteOrder
  import opened Registers
  import opened BankSpec
  import opened SparseMemory
  import opened TransportSpec
  import opened Wrappers

  /** No register has bytes in the window. */
  ghost predicate Nobody(w: World, address: nat, length: nat) {
    Away(w.local.mem, address, length) && Away(w.fallback.mem, address, length)
  }

  /** The registers of a space gave the access this status and moved these bytes. */
  ghost predicate Taken(s: Space, buf: seq<u8>, q: Query, pos: nat, s': Space, buf': seq<u8>, bytes: nat, status: Response)
    requires WellPlaced(s.es)
  {
    && s'.es == s.es && status == StatusOf(s.es, q) && bytes == |Moved(s.es, q)|
    && BytesMoved(s.es, q, s.mem, buf, pos - q.address, s'.mem, buf')
    && RestStays(s.es, q, s.mem, buf, pos - q.address, s'.mem, buf')
  }

  /** Who answers a plain access: the local space if it has registers in the window, otherwise the fallback if that has;
  otherwise it is an address error unless the access neither reads nor writes. */
  ghost predicate Answered(w: World, buf: seq<u8>, cmd: Command, info: Sideband, address: nat, length: nat, pos: nat,
                           w': World, buf': seq<u8>, bytes: nat, status: Response)
    requires w.Valid()
  {
    var q := Query(cmd, address, length, Incomplete, info);
    if !Away(w.local.mem, address, length) then
      !status.Incomplete? && w'.fallback == w.fallback && Taken(w.local, buf, q, pos, w'.local, buf', bytes, status)
    else if !Away(w.fallback.mem, address, length) then
      !status.Incomplete? && w'.local == w.local && Taken(w.fallback, buf, q, pos, w'.fallback, buf', bytes, status)
    else
      && w' == w && buf' == buf && bytes == (if cmd.Ignore? then length else 0)
      && status == if cmd.Ignore? then Ok else AddressError
  }

  lemma OfferEffect(s: Space, buf: seq<u8>, q: Query, a: Access)
    requires s.Valid() && a.length == q.length && a.address == q.address && a.pos + a.length <= |buf|
    ensures var (s', buf', n, status) := Offer(s, buf, q, a);
      && s'.es == s.es && n == |ServedFrom(s.es, 0, q)| && status == StatusFrom(s.es, 0, q)
      && Effect(q.command, s.mem, buf, a.pos - a.address, ServedFrom(s.es, 0, q), s'.mem, buf')
  {
    hide WellPlaced, StoredAt, LoadedAt, StatusFrom, ServedFrom, Effect;
    ServedInside(s, q, a.pos - a.address, |buf|);
    EffectOf(q.command, s.mem, buf, a.pos - a.address, ServedFrom(s.es, 0, q));
  }

  lemma EffectOf(cmd: Command, m: Memory, buf: seq<u8>, delta: int, s: set<nat>)
    requires forall x :: x in s ==> x in m && 0 <= x + delta < |buf|
    ensures Effect(cmd, m, buf, delta, s, if cmd.Write? then StoredAt(m, s, buf, delta) else m,
                   if cmd.Read? then LoadedAt(buf, m, s, delta) else buf)
  {
    hide StoredAt, LoadedAt;
  }

  lemma ServedInside(s: Space, q: Query, delta: int, n: nat)
    requires s.Valid() && q.address + delta >= 0 && q.address + q.length + delta <= n
    ensures forall x :: x in ServedFrom(s.es, 0, q) ==> x in s.mem && 0 <= x + delta < n
  {
    InWindow(s.es, q);
    ServedInMem(s, q);
    hide WellPlaced, ServedFrom, Space.Valid;
  }

  lemma OfferMeans(s: Space, buf: seq<u8>, q: Query, a: Access)
    requires s.Valid() && a.length == q.length && a.address == q.address && a.pos + a.length <= |buf|
    requires q.response.Incomplete?
    ensures var (s', buf', n, status) := Offer(s, buf, q, a);
      Taken(s, buf, q, a.pos, s', buf', n, status) && (status.Incomplete? <==> Away(s.mem, a.address, a.length))
  {
    hide WellPlaced, StatusFrom, StatusOf, ServedFrom, Effect, BytesMoved, RestStays, Away, Moved, Covered, Offer;
    var (s', buf', n, status) := Offer(s, buf, q, a);
    OfferEffect(s, buf, q, a);
    StatusMeans(s.es, q);
    MovedMeans(s.es, q);
    StatusAway(s, q);
    EffectMeans(s.es, q, s.mem, buf, a.pos - a.address, s'.mem, buf');
  }

  lemma StatusAway(s: Space, q: Query)
    requires s.Valid() && q.response.Incomplete?
    ensures StatusOf(s.es, q).Incomplete? <==> Away(s.mem, q.address, q.length)
  {
    AllValid(s.es);
    hide WellPlaced, Mapped.At;
    if i :| 0 <= i < |s.es| && Touches(s.es[i], q) {
      var x: int :| q.Window(x) && s.es[i].At(x);
      assert Covered(s.es, x);
    }
    if x: nat :| q.Window(x) && x in s.mem {
      var i :| 0 <= i < |s.es| && s.es[i].At(x);
      assert Touches(s.es[i], q);
    }
  }

  /** One access, whatever registers there are. */
  lemma StepMeans(s: State, cmd: Command, info: Sideband, a: Access)
    requires s.world.Valid() && a.length > 0 && a.pos + a.length <= |s.buf|
    ensures var r := Step(s, cmd, info, a);
      && s.count <= r.count
      && Answered(s.world, s.buf, cmd, info, a.address, a.length, a.pos, r.world, r.buf, r.count - s.count, r.response)
  {
    var q := QueryOf(cmd, info, a);
    hide Taken, Offer, Away, Space.Valid;
    OfferMeans(s.world.local, s.buf, q, a);
    OfferMeans(s.world.fallback, s.buf, q, a);
    if Away(s.world.local.mem, a.address, a.length) {
      NothingLocal(s.world.local, s.buf, cmd, info, a);
      if Away(s.world.fallback.mem, a.address, a.length) {
        NothingLocal(s.world.fallback, s.buf, cmd, info, a);
      }
    }
  }

  lemma NobodyAnswers(s: State, cmd: Command, info: Sideband, a: Access)
    requires s.world.Valid() && a.length > 0 && a.pos + a.length <= |s.buf| && Nobody(s.world, a.address, a.length)
    ensures Step(s, cmd, info, a) ==
      if cmd.Ignore? then s.(count := s.count + a.length, response := Ok) else s.(response := AddressError)
  {
    hide Offer, Away, Space.Valid;
    NothingLocal(s.world.local, s.buf, cmd, info, a);
    NothingLocal(s.world.fallback, s.buf, cmd, info, a);
  }

  // Transports

  predicate On(enable: seq<u8>, beLength: nat, t: nat)
    requires 0 < beLength <= |enable|
  {
    enable[t % beLength] != 0
  }

  /** Byte `t` of the stream is the first one that is enabled. */
  ghost predicate FirstOn(enable: seq<u8>, beLength: nat, t: nat)
    requires 0 < beLength <= |enable|
  {
    On(enable, beLength, t) && forall u: nat :: u < t ==> !On(enable, beLength, u)
  }

  lemma {:induction false} NoneOn(address: nat, width: nat, pos: nat, enable: seq<u8>, beLength: nat, n: nat)
    requires width > 0 && 0 < beLength <= |enable|
    ensures EnabledBytes(address, width, pos, enable, beLength, n) == [] <==> forall u: nat :: u < n ==> !On(enable, beLength, u)
  {
    hide On, Enabled;
    if n > 0 {
      NoneOn(address, width, pos, enable, beLength, n - 1);
      OnIsEnabled(enable, beLength, n - 1);
    }
  }

  lemma OnIsEnabled(enable: seq<u8>, beLength: nat, t: nat)
    requires 0 < beLength <= |enable|
    ensures On(enable, beLength, t) <==> Enabled(enable, beLength, t)
  {
  }

  lemma OneStep(s: State, cmd: Command, info: Sideband, a: Access)
    requires s.world.Valid() && s.response.Incomplete? && a.length > 0 && a.pos + a.length <= |s.buf|
    ensures Steps(s, cmd, info, [a]) == Step(s, cmd, info, a)
  {
    hide Step;
    assert [] + [a] == [a];
    StepsAppend(s, cmd, info, [], a);
  }

  lemma SomeStep(s: State, cmd: Command, info: Sideband, accesses: seq<Access>)
    requires s.world.Valid() && Fitting(|s.buf|, accesses) && accesses != []
    ensures !Steps(s, cmd, info, accesses).response.Incomplete?
  {
    hide Step;
  }

  /** A transport whose first access finds no register stops there with an address error. */
  lemma FirstPulseFails(s: State, cmd: Command, info: Sideband, address: nat, width: nat, pos: nat, n: nat)
    requires s.world.Valid() && s.response.Incomplete? && width > 0 && n > 0 && pos + n * width <= |s.buf|
    requires Nobody(s.world, address, width) && !cmd.Ignore?
    ensures Steps(s, cmd, info, Pulses(address, width, pos, n)) == s.(response := AddressError)
  {
    hide Step, Steps, Nobody;
    ProductGrows(1, n, width);
    var a := Access(address, width, pos);
    assert Pulses(address, width, pos, 0) == [];
    assert Pulses(address, width, pos, 1) == [a];
    hide Pulses;
    OneStep(s, cmd, info, a);
    NobodyAnswers(s, cmd, info, a);
    PlainStopped(s, cmd, info, address, width, pos, 1, n);
  }

  lemma FirstByteAccess(address: nat, width: nat, pos: nat, enable: seq<u8>, beLength: nat, t: nat)
    requires width > 0 && 0 < beLength <= |enable| && FirstOn(enable, beLength, t)
    ensures EnabledBytes(address, width, pos, enable, beLength, t + 1) == [Access(address + t % width, 1, pos + t)]
  {
    NoneOn(address, width, pos, enable, beLength, t);
    OnIsEnabled(enable, beLength, t);
    hide On, Enabled;
  }

  lemma FirstByteFails(s: State, cmd: Command, info: Sideband, address: nat, width: nat, pos: nat, enable: seq<u8>,
                       beLength: nat, t: nat, n: nat)
    requires s.world.Valid() && s.response.Incomplete? && width > 0 && t < n && pos + n <= |s.buf|
    requires 0 < beLength <= |enable| && FirstOn(enable, beLength, t)
    requires Nobody(s.world, address + t % width, 1) && !cmd.Ignore?
    ensures Steps(s, cmd, info, EnabledBytes(address, width, pos, enable, beLength, n)) == s.(response := AddressError)
  {
    hide Step, Steps, Nobody, EnabledBytes, FirstOn, World.Valid;
    FirstByteAccess(address, width, pos, enable, beLength, t);
    var a := Access(address + t % width, 1, pos + t);
    OneStep(s, cmd, info, a);
    NobodyAnswers(s, cmd, info, a);
    EnabledStopped(s, cmd, info, address, width, pos, enable, beLength, t + 1, n);
  }

  /** A transport that neither reads nor writes and finds no register is ok and counts all its bytes. */
  lemma {:induction false} PulsesIgnored(s: State, info: Sideband, address: nat, width: nat, pos: nat, n: nat)
    requires s.world.Valid() && s.response.Incomplete? && width > 0 && pos + n * width <= |s.buf|
    requires Nobody(s.world, address, width)
    ensures Steps(s, Ignore, info, Pulses(address, width, pos, n)) ==
      s.(count := s.count + n * width, response := if n == 0 then Incomplete else Ok)
  {
    hide Step, Steps, Nobody, Pulses, World.Valid;
    if n == 0 {
      NoPulses(address, width, pos);
      StepsNothing(s, Ignore, info);
    } else {
      ProductGrows(n - 1, n, width);
      PulsesIgnored(s, info, address, width, pos, n - 1);
      OnePulseMore(s, info, address, width, pos, n - 1);
    }
  }

  lemma NoPulses(address: nat, width: nat, pos: nat)
    requires width > 0
    ensures Pulses(address, width, pos, 0) == []
  {
  }

  lemma PulsesNext(address: nat, width: nat, pos: nat, n: nat)
    requires width > 0
    ensures (n + 1) * width == n * width + width
    ensures Pulses(address, width, pos, n + 1) == Pulses(address, width, pos, n) + [Access(address, width, pos + n * width)]
  {
  }

  lemma OnePulseMore(s: State, info: Sideband, address: nat, width: nat, pos: nat, n: nat)
    requires s.world.Valid() && width > 0 && n * width <= (n + 1) * width && pos + (n + 1) * width <= |s.buf|
    requires Nobody(s.world, address, width)
    requires var before := Steps(s, Ignore, info, Pulses(address, width, pos, n));
      before.world == s.world && before.buf == s.buf && before.count == s.count + n * width && !Failed(before.response)
    ensures Steps(s, Ignore, info, Pulses(address, width, pos, n + 1)) ==
      s.(count := s.count + (n + 1) * width, response := Ok)
  {
    hide Step, Steps, Nobody, Pulses, World.Valid;
    PulsesNext(address, width, pos, n);
    var a, before := Access(address, width, pos + n * width), Pulses(address, width, pos, n);
    StepsAppend(s, Ignore, info, before, a);
    NobodyAnswers(Steps(s, Ignore, info, before), Ignore, info, a);
  }

  /** What a transport ends with that makes no access, has a stray byte enable length, or finds no register: at its first
  byte for a read or a write, which then stops with an address error, or at all for one that neither reads nor writes. */
  ghost predicate Ends(s: State, r: State, cmd: Command, address: nat, length: nat, streaming: nat,
                       enable: Option<seq<u8>>, beLength: nat)
    requires enable.Some? ==> 0 < beLength <= |enable.value|
  {
    var width := if streaming == 0 then length else streaming;
    width > 0 ==>
      var n := length / width * width;
      && (r.response.Incomplete? <==>
            width > length || (enable.Some? && forall t: nat :: t < n ==> !On(enable.value, beLength, t)))
      && (enable.None? && beLength != 0 && width <= length ==> r == s.(response := ByteEnableError))
      && (enable.None? && beLength == 0 && width <= length && Nobody(s.world, address, width) ==>
            r == if cmd.Ignore? then s.(count := s.count + n, response := Ok) else s.(response := AddressError))
      && (enable.Some? && !cmd.Ignore? ==> forall t: nat ::
            t < n && FirstOn(enable.value, beLength, t) && Nobody(s.world, address + t % width, 1) ==>
            r == s.(response := AddressError))
  }

  lemma PlainEnds(s: State, cmd: Command, info: Sideband, address: nat, width: nat, pos: nat, beLength: nat, n: nat)
    requires s.world.Valid() && s.response.Incomplete? && width > 0 && pos + n * width <= |s.buf|
    ensures var r := AfterPulses(s, cmd, info, address, width, pos, None, beLength, n);
      && (r.response.Incomplete? <==> n == 0)
      && (beLength != 0 && n > 0 ==> r == s.(response := ByteEnableError))
      && (beLength == 0 && n > 0 && Nobody(s.world, address, width) ==>
            r == if cmd.Ignore? then s.(count := s.count + n * width, response := Ok) else s.(response := AddressError))
  {
    hide Step, Steps, Nobody, World.Valid;
    var accesses := PartOf(address, width, pos, None, beLength, n);
    if n == 0 {
      StepsNothing(s, cmd, info);
    } else {
      SomeStep(s, cmd, info, accesses);
      if Nobody(s.world, address, width) {
        if cmd.Ignore? {
          PulsesIgnored(s, info, address, width, pos, n);
        } else {
          FirstPulseFails(s, cmd, info, address, width, pos, n);
        }
      }
    }
  }

  lemma EnabledEnds(s: State, cmd: Command, info: Sideband, address: nat, width: nat, pos: nat, enable: seq<u8>,
                    beLength: nat, n: nat)
    requires s.world.Valid() && s.response.Incomplete? && width > 0 && pos + n * width <= |s.buf|
    requires 0 < beLength <= |enable|
    ensures var r := AfterPulses(s, cmd, info, address, width, pos, Some(enable), beLength, n);
      && (r.response.Incomplete? <==> forall t: nat :: t < n * width ==> !On(enable, beLength, t))
      && (!cmd.Ignore? ==> forall t: nat ::
            t < n * width && FirstOn(enable, beLength, t) && Nobody(s.world, address + t % width, 1) ==>
            r == s.(response := AddressError))
  {
    hide Step, Steps, Nobody, On, FirstOn, World.Valid;
    NoneOn(address, width, pos, enable, beLength, n * width);
    var accesses := PartOf(address, width, pos, Some(enable), beLength, n);
    hide EnabledBytes;
    if accesses == [] {
      StepsNothing(s, cmd, info);
    } else {
      SomeStep(s, cmd, info, accesses);
    }
    forall t: nat | t < n * width && FirstOn(enable, beLength, t) && Nobody(s.world, address + t % width, 1) && !cmd.Ignore?
      ensures Steps(s, cmd, info, accesses) == s.(response := AddressError)
    {
      FirstByteFails(s, cmd, info, address, width, pos, enable, beLength, t, n * width);
    }
  }

  lemma SomePulse(length: nat, width: nat)
    requires width > 0 && length > 0
    ensures length / width == 0 <==> width > length
    ensures length / width == 0 ==> length / width * width == 0
  {
  }

  lemma TransportEnds(s: State, cmd: Command, info: Sideband, address: nat, length: nat, streaming: nat, pos: nat,
                      enable: Option<seq<u8>>, beLength: nat)
    requires s.world.Valid() && s.response.Incomplete? && length > 0 && pos + length <= |s.buf|
    requires enable.Some? ==> 0 < beLength <= |enable.value|
    ensures Ends(s, TransportOf(s, cmd, info, address, length, streaming, pos, enable, beLength), cmd, address, length,
                 streaming, enable, beLength)
  {
    hide AfterPulses, Nobody, On, FirstOn, World.Valid;
    var width := if streaming == 0 then length else streaming;
    var count := length / width;
    PulsesInside(length, width, count);
    SomePulse(length, width);
    if enable.Some? {
      EnabledEnds(s, cmd, info, address, width, pos, enable.value, beLength, count);
    } else {
      PlainEnds(s, cmd, info, address, width, pos, beLength, count);
    }
  }

  lemma StepsNothing(s: State, cmd: Command, info: Sideband)
    requires s.world.Valid()
    ensures Steps(s, cmd, info, []) == s
  {
  }
}
