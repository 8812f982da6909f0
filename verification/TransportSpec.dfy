/** What a transport call of a peripheral means: a list of plain accesses done one after the other. */
module TransportSpec {
  import opened ByteOrder
  import opened Layout
  import opened Registers
  import opened BankSpec
  import opened SparseMemory
  import opened Wrappers

  /** The registers of an address space and the bytes one processor sees in it. */
  datatype Space = Space(es: seq<Mapped>, mem: Memory) {
    ghost predicate Valid() {
      WellPlaced(es) && forall a: nat :: a in mem <==> Covered(es, a)
    }
  }

  /** The space an access is made in and the one that is tried when no register takes it. */
  datatype World = World(local: Space, fallback: Space) {
    /** The space that serves an access: the fallback does only if the local one has no register there. */
    function Home(global: bool): Space {
      if global then fallback else local
    }

    function WithMem(global: bool, m: Memory): World {
      if global then this.(fallback := fallback.(mem := m)) else this.(local := local.(mem := m))
    }

    ghost predicate Valid() {
      local.Valid() && fallback.Valid()
    }
  }

  /** A plain access of `length` bytes at `address` with its bytes at index `pos` of the buffer. */
  datatype Access = Access(address: nat, length: nat, pos: nat)

  /** The state of a transport: spaces, buffer, byte count and status. */
  datatype State = State(world: World, buf: seq<u8>, count: nat, response: Response)

  ghost predicate Fitting(n: nat, accesses: seq<Access>) {
    forall i :: 0 <= i < |accesses| ==> accesses[i].length > 0 && accesses[i].pos + accesses[i].length <= n
  }

  function QueryOf(cmd: Command, info: Sideband, a: Access): Query {
    Query(cmd, a.address, a.length, Incomplete, info)
  }

  ghost function MemAfter(s: Space, q: Query, buf: seq<u8>, a: Access): (m: Memory)
    requires s.Valid() && a.length == q.length && a.address == q.address && a.pos + a.length <= |buf|
    ensures m.Keys == s.mem.Keys
  {
    if q.command.Write? then StoredAt(s.mem, Served(s.es, q), buf, a.pos - a.address) else s.mem
  }

  ghost function BufAfter(s: Space, q: Query, buf: seq<u8>, a: Access): (r: seq<u8>)
    requires s.Valid() && a.length == q.length && a.address == q.address && a.pos + a.length <= |buf|
    ensures |r| == |buf|
  {
    ServedInMem(s, q);
    if q.command.Read? then LoadedAt(buf, s.mem, Served(s.es, q), a.pos - a.address) else buf
  }

  lemma ServedInMem(s: Space, q: Query)
    requires s.Valid()
    ensures forall a :: a in Served(s.es, q) ==> a in s.mem
  {
    forall a | a in Served(s.es, q) ensures Covered(s.es, a) {
      var j :| 0 <= j < |s.es| && Serves(s.es, j, q) && s.es[j].At(a);
    }
  }

  /** The registers of one space are offered the access. */
  ghost function Offer(s: Space, buf: seq<u8>, q: Query, a: Access): (r: (Space, seq<u8>, nat, Response))
    requires s.Valid() && a.length == q.length && a.address == q.address && a.pos + a.length <= |buf|
    ensures r.0.Valid() && |r.1| == |buf|
  {
    (s.(mem := MemAfter(s, q, buf, a)), BufAfter(s, q, buf, a), |Served(s.es, q)|, StatusFrom(s.es, 0, q))
  }

  /** The local registers are asked first, then the fallback if none of them took the access. */
  ghost function Routed(w: World, buf: seq<u8>, q: Query, a: Access): (r: (World, seq<u8>, nat, Response))
    requires w.Valid() && a.length == q.length && a.address == q.address && a.pos + a.length <= |buf|
    ensures r.0.Valid() && |r.1| == |buf|
  {
    var (local, buf1, n1, status1) := Offer(w.local, buf, q, a);
    if !status1.Incomplete? then (World(local, w.fallback), buf1, n1, status1) else
      var (fallback, buf2, n2, status2) := Offer(w.fallback, buf1, q, a);
      (World(local, fallback), buf2, n1 + n2, status2)
  }

  /** One access; when no register takes it, the peripheral answers with an address error. */
  ghost function Step(s: State, cmd: Command, info: Sideband, a: Access): (r: State)
    requires s.world.Valid() && a.length > 0 && a.pos + a.length <= |s.buf|
    ensures r.world.Valid() && |r.buf| == |s.buf| && !r.response.Incomplete?
  {
    var (world, buf, n, status) := Routed(s.world, s.buf, QueryOf(cmd, info, a), a);
    if !status.Incomplete? then State(world, buf, s.count + n, status)
    else if cmd.Ignore? then State(world, buf, s.count + a.length, Ok)
    else State(world, buf, s.count, AddressError)
  }

  ghost predicate Away(m: Memory, address: nat, length: nat) {
    forall x: nat :: address <= x < address + length ==> x !in m
  }

  /** A space without registers in the window of an access leaves it alone. */
  lemma NothingLocal(space: Space, buf: seq<u8>, cmd: Command, info: Sideband, a: Access)
    requires space.Valid() && Away(space.mem, a.address, a.length) && a.pos + a.length <= |buf|
    ensures Offer(space, buf, QueryOf(cmd, info, a), a) == (space, buf, 0, Incomplete)
  {
    var q := QueryOf(cmd, info, a);
    forall i, x: int | 0 <= i < |space.es| && q.Window(x) ensures !space.es[i].At(x) {
      assert x !in space.mem;
    }
    assert forall i :: 0 <= i < |space.es| ==> !Touches(space.es[i], q);
    assert Served(space.es, q) == {};
    hide WellPlaced, Touches, Covered;
    assert MemAfter(space, q, buf, a) == space.mem;
    assert BufAfter(space, q, buf, a) == buf;
  }

  /** Accesses are made until one fails. */
  ghost function Steps(s: State, cmd: Command, info: Sideband, accesses: seq<Access>): (r: State)
    requires s.world.Valid() && Fitting(|s.buf|, accesses)
    ensures r.world.Valid() && |r.buf| == |s.buf|
  {
    if accesses == [] then s else
      var n := |accesses| - 1;
      var before := Steps(s, cmd, info, accesses[..n]);
      if Failed(before.response) then before else Step(before, cmd, info, accesses[n])
  }

  /** The accesses of a transport without byte enables: one per pulse, all at the same address. */
  function Pulses(address: nat, width: nat, pos: nat, n: nat): (s: seq<Access>)
    requires width > 0
    ensures |s| == n
    ensures forall p :: 0 <= p < n ==> s[p].address == address && s[p].length == width
    ensures forall p :: 0 <= p < n ==> pos <= s[p].pos && s[p].pos + width <= pos + n * width
  {
    if n == 0 then [] else Pulses(address, width, pos, n - 1) + [Access(address, width, pos + (n - 1) * width)]
  }

  predicate Enabled(enable: seq<u8>, beLength: nat, t: nat)
    requires 0 < beLength <= |enable|
  {
    enable[t % beLength] != 0
  }

  /** The accesses of a transport with byte enables: one per enabled byte of the first `n` bytes of the stream.
  The enable pattern repeats over the whole stream, the address repeats with every pulse. */
  function EnabledBytes(address: nat, width: nat, pos: nat, enable: seq<u8>, beLength: nat, n: nat): (s: seq<Access>)
    requires width > 0 && 0 < beLength <= |enable|
    ensures forall i :: 0 <= i < |s| ==> s[i].length == 1 && pos <= s[i].pos < pos + n
    ensures forall i :: 0 <= i < |s| ==> address <= s[i].address < address + width
  {
    if n == 0 then [] else
      EnabledBytes(address, width, pos, enable, beLength, n - 1) +
      if Enabled(enable, beLength, n - 1) then [Access(address + (n - 1) % width, 1, pos + (n - 1))] else []
  }

  lemma StepsAppend(s: State, cmd: Command, info: Sideband, accesses: seq<Access>, a: Access)
    requires s.world.Valid() && Fitting(|s.buf|, accesses + [a])
    ensures Fitting(|s.buf|, accesses) && a.length > 0 && a.pos + a.length <= |s.buf|
    ensures Steps(s, cmd, info, accesses + [a]) ==
      var before := Steps(s, cmd, info, accesses);
      if Failed(before.response) then before else Step(before, cmd, info, a)
  {
    hide Step;
    assert (accesses + [a])[|accesses|] == a;
    assert (accesses + [a])[..|accesses|] == accesses;
    assert forall i :: 0 <= i < |accesses| ==> accesses[i] == (accesses + [a])[i];
  }

  /** Once an access failed, further accesses change nothing. */
  lemma {:induction false} StepsStopped(s: State, cmd: Command, info: Sideband, accesses: seq<Access>, more: seq<Access>)
    requires s.world.Valid() && Fitting(|s.buf|, accesses + more)
    requires Fitting(|s.buf|, accesses) && Failed(Steps(s, cmd, info, accesses).response)
    ensures Steps(s, cmd, info, accesses + more) == Steps(s, cmd, info, accesses)
    decreases |more|
  {
    hide Step, Steps;
    if more == [] {
      assert accesses + more == accesses;
    } else {
      var n := |more| - 1;
      assert accesses + more == (accesses + more[..n]) + [more[n]];
      assert forall i :: 0 <= i < |accesses + more[..n]| ==> (accesses + more[..n])[i] == (accesses + more)[i];
      StepsStopped(s, cmd, info, accesses, more[..n]);
      StepsAppend(s, cmd, info, accesses + more[..n], more[n]);
    }
  }

  lemma {:induction false} PulsesExtend(address: nat, width: nat, pos: nat, m: nat, n: nat) returns (more: seq<Access>)
    requires width > 0 && m <= n
    ensures Pulses(address, width, pos, n) == Pulses(address, width, pos, m) + more
  {
    if m == n {
      more := [];
    } else {
      more := PulsesExtend(address, width, pos, m, n - 1);
      more := more + [Access(address, width, pos + (n - 1) * width)];
    }
  }

  lemma {:induction false} BytesExtend(address: nat, width: nat, pos: nat, enable: seq<u8>, beLength: nat, m: nat, n: nat)
    returns (more: seq<Access>)
    requires width > 0 && 0 < beLength <= |enable| && m <= n
    ensures EnabledBytes(address, width, pos, enable, beLength, n)
            == EnabledBytes(address, width, pos, enable, beLength, m) + more
  {
    if m == n {
      more := [];
    } else {
      more := BytesExtend(address, width, pos, enable, beLength, m, n - 1);
      more := more + if Enabled(enable, beLength, n - 1) then [Access(address + (n - 1) % width, 1, pos + (n - 1))] else [];
    }
  }

  function Width(length: nat, streaming: nat): nat {
    if streaming == 0 then length else streaming
  }

  /** The accesses of the first `n` pulses. */
  function PartOf(address: nat, width: nat, pos: nat, enable: Option<seq<u8>>, beLength: nat, n: nat): (s: seq<Access>)
    requires width > 0 && (enable.Some? ==> 0 < beLength <= |enable.value|)
    ensures forall i :: 0 <= i < |s| ==> s[i].length > 0 && s[i].pos + s[i].length <= pos + n * width
  {
    if enable.None? then Pulses(address, width, pos, n)
    else EnabledBytes(address, width, pos, enable.value, beLength, n * width)
  }

  /** Pulse `p` lies in the data of the transaction. */
  lemma PulseInside(length: nat, width: nat, p: nat)
    requires width > 0 && p < length / width
    ensures (p + 1) * width == p * width + width <= length / width * width <= length
  {
    var d := length / width - (p + 1);
    assert d * width == length / width * width - (p + 1) * width;
  }

  /** The state after `n` pulses. A stray byte enable length makes the first access fail. */
  ghost function AfterPulses(s: State, cmd: Command, info: Sideband, address: nat, width: nat, pos: nat,
                             enable: Option<seq<u8>>, beLength: nat, n: nat): (r: State)
    requires s.world.Valid() && width > 0 && pos + n * width <= |s.buf|
    requires enable.Some? ==> 0 < beLength <= |enable.value|
    ensures r.world.Valid() && |r.buf| == |s.buf|
  {
    if enable.None? && beLength != 0 && n > 0 then s.(response := ByteEnableError)
    else Steps(s, cmd, info, PartOf(address, width, pos, enable, beLength, n))
  }

  /** The state a transport ends with. */
  ghost function TransportOf(s: State, cmd: Command, info: Sideband, address: nat, length: nat, streaming: nat,
                             pos: nat, enable: Option<seq<u8>>, beLength: nat): State
    requires s.world.Valid() && length > 0 && pos + length <= |s.buf|
    requires enable.Some? ==> 0 < beLength <= |enable.value|
  {
    var width := Width(length, streaming);
    PulsesInside(length, width, length / width);
    AfterPulses(s, cmd, info, address, width, pos, enable, beLength, length / width)
  }

  lemma PulsesInside(length: nat, width: nat, n: nat)
    requires width > 0 && n <= length / width
    ensures n * width <= length
  {
    if n > 0 {
      PulseInside(length, width, n - 1);
    }
  }

  lemma NoPulseYet(s: State, cmd: Command, info: Sideband, address: nat, width: nat, pos: nat,
                   enable: Option<seq<u8>>, beLength: nat)
    requires s.world.Valid() && width > 0 && pos <= |s.buf| && (enable.Some? ==> 0 < beLength <= |enable.value|)
    ensures AfterPulses(s, cmd, info, address, width, pos, enable, beLength, 0) == s
  {
    assert PartOf(address, width, pos, enable, beLength, 0) == [];
  }

  /** One more pulse without byte enables is one more access. */
  lemma PlainPulse(s: State, cmd: Command, info: Sideband, address: nat, width: nat, pos: nat, beLength: nat, p: nat)
    requires s.world.Valid() && width > 0 && pos + p * width + width <= |s.buf|
    ensures (p + 1) * width == p * width + width
    ensures
      var before := AfterPulses(s, cmd, info, address, width, pos, None, beLength, p);
      !Failed(before.response) ==>
        AfterPulses(s, cmd, info, address, width, pos, None, beLength, p + 1) ==
        if beLength != 0 then before.(response := ByteEnableError)
        else Step(before, cmd, info, Access(address, width, pos + p * width))
  {
    hide Steps, Step;
    NoPulseYet(s, cmd, info, address, width, pos, None, beLength);
    StepsAppend(s, cmd, info, Pulses(address, width, pos, p), Access(address, width, pos + p * width));
  }

  lemma ProductGrows(p: nat, n: nat, width: nat)
    requires p <= n
    ensures p * width <= n * width
  {
    var d := n - p;
    assert d * width == n * width - p * width;
  }

  lemma PlainStopped(s: State, cmd: Command, info: Sideband, address: nat, width: nat, pos: nat, p: nat, n: nat)
    requires s.world.Valid() && width > 0 && p <= n && pos + n * width <= |s.buf|
    ensures p * width <= n * width
    ensures var now := Steps(s, cmd, info, Pulses(address, width, pos, p));
      Failed(now.response) ==> Steps(s, cmd, info, Pulses(address, width, pos, n)) == now
  {
    hide Steps, Pulses;
    ProductGrows(p, n, width);
    var more := PulsesExtend(address, width, pos, p, n);
    if Failed(Steps(s, cmd, info, Pulses(address, width, pos, p)).response) {
      StepsStopped(s, cmd, info, Pulses(address, width, pos, p), more);
    }
  }

  lemma EnabledStopped(s: State, cmd: Command, info: Sideband, address: nat, width: nat, pos: nat,
                       enable: seq<u8>, beLength: nat, m: nat, n: nat)
    requires s.world.Valid() && width > 0 && 0 < beLength <= |enable| && m <= n && pos + n <= |s.buf|
    ensures var now := Steps(s, cmd, info, EnabledBytes(address, width, pos, enable, beLength, m));
      Failed(now.response) ==> Steps(s, cmd, info, EnabledBytes(address, width, pos, enable, beLength, n)) == now
  {
    hide Steps, EnabledBytes;
    var more := BytesExtend(address, width, pos, enable, beLength, m, n);
    if Failed(Steps(s, cmd, info, EnabledBytes(address, width, pos, enable, beLength, m)).response) {
      StepsStopped(s, cmd, info, EnabledBytes(address, width, pos, enable, beLength, m), more);
    }
  }

  lemma PulsesStopped(s: State, cmd: Command, info: Sideband, address: nat, width: nat, pos: nat,
                      enable: Option<seq<u8>>, beLength: nat, p: nat, n: nat)
    requires s.world.Valid() && width > 0 && (enable.Some? ==> 0 < beLength <= |enable.value|)
    requires p <= n && pos + n * width <= |s.buf| && s.response.Incomplete?
    ensures p * width <= n * width
    ensures var now := AfterPulses(s, cmd, info, address, width, pos, enable, beLength, p);
      Failed(now.response) ==> AfterPulses(s, cmd, info, address, width, pos, enable, beLength, n) == now
  {
    hide Steps, Pulses, EnabledBytes, Fitting;
    ProductGrows(p, n, width);
    if p == 0 {
      NoPulseYet(s, cmd, info, address, width, pos, enable, beLength);
    } else if enable.None? {
      PlainStopped(s, cmd, info, address, width, pos, p, n);
    } else {
      EnabledStopped(s, cmd, info, address, width, pos, enable.value, beLength, p * width, n * width);
    }
  }
}
