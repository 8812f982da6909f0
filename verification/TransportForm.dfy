/** What a whole transport call does to registers and buffer, byte by byte of the data stream. */
module TransportForm {
  import opened ByteOrder
  import opened Layout
  import opened Registers
  import opened BankSpec
  import opened SparseMemory
  import opened TransportSpec
  import opened Wrappers

  /** How a transport cuts its data into pulses and which bytes of the stream take part. */
  datatype Stream = Stream(address: nat, width: nat, pos: nat, enable: Option<seq<u8>>, beLength: nat, global: bool) {
    predicate Valid() {
      width > 0 && if enable.Some? then 0 < beLength <= |enable.value| else beLength == 0
    }

    predicate Enables(t: nat)
      requires Valid()
    {
      enable.Some? ==> enable.value[t % beLength] != 0
    }

    /** Byte `t` of the stream goes to or comes from address `x`. */
    predicate Lands(t: nat, x: int)
      requires Valid()
    {
      address + t % width == x && Enables(t)
    }

    /** The bytes that take part among the first `n` bytes of the stream. */
    ghost function Positions(n: nat): set<nat>
      requires Valid()
    {
      set t: nat | 0 <= t < n && Enables(t)
    }

    /** Byte `t` is the last one of the first `n` bytes that lands on `x`. */
    ghost predicate Wins(t: nat, x: int, n: nat)
      requires Valid()
    {
      t < n && Lands(t, x) && forall u: nat :: t < u < n ==> !Lands(u, x)
    }

    function Part(p: nat): seq<Access>
      requires Valid()
    {
      PartOf(address, width, pos, enable, beLength, p)
    }

    /** The accesses of the first `n` bytes when bytes are enabled one by one. */
    function Bytes(n: nat): (r: seq<Access>)
      requires Valid() && enable.Some?
      ensures forall i :: 0 <= i < |r| ==> r[i].length == 1 && r[i].pos + r[i].length <= pos + n
    {
      EnabledBytes(address, width, pos, enable.value, beLength, n)
    }

    function ByteAccess(t: nat): Access
      requires Valid()
    {
      Access(address + t % width, 1, pos + t)
    }

    /** Registers of the stream's space cover the whole window; if it is the fallback, the local space has none there. */
    ghost predicate At(w: World)
      requires Valid()
    {
      InMem(w.Home(global).mem, address, width) && (global ==> Away(w.local.mem, address, width))
    }

    /** Besides, every access of the first `p` pulses is granted. */
    ghost predicate Plain(w: World, cmd: Command, info: Sideband, p: nat)
      requires Valid() && w.Valid()
    {
      && At(w)
      && (forall i :: 0 <= i < |Part(p)| ==> Permitted(w.Home(global).es, QueryOf(cmd, info, Part(p)[i])))
    }
  }

  ghost predicate InMem(m: Memory, address: nat, length: nat) {
    forall x: nat :: address <= x < address + length ==> x in m
  }

  /** The bytes of an access put into memory. */
  ghost function Put(m: Memory, buf: seq<u8>, a: Access): (r: Memory)
    requires a.pos + a.length <= |buf|
    ensures r.Keys == m.Keys
  {
    map x | x in m :: if a.address <= x < a.address + a.length then buf[a.pos + (x - a.address)] else m[x]
  }

  /** The bytes of an access fetched from memory. */
  ghost function Fetched(buf: seq<u8>, m: Memory, a: Access): (r: seq<u8>)
    requires InMem(m, a.address, a.length)
    ensures |r| == |buf|
  {
    seq(|buf|, i requires 0 <= i < |buf| => if a.pos <= i < a.pos + a.length then m[a.address + (i - a.pos)] else buf[i])
  }

  /** A granted access to covered bytes serves all of them. */
  lemma PlainServed(space: Space, cmd: Command, info: Sideband, a: Access)
    requires space.Valid() && a.length > 0 && Permitted(space.es, QueryOf(cmd, info, a))
    requires InMem(space.mem, a.address, a.length)
    ensures Served(space.es, QueryOf(cmd, info, a)) == Interval(a.address, a.address + a.length)
    ensures StatusFrom(space.es, 0, QueryOf(cmd, info, a)) == Ok
  {
    hide WellPlaced, StatusFrom, Permitted, Covered, Served;
    PermittedServesCovered(space.es, QueryOf(cmd, info, a));
    assert a.address in Served(space.es, QueryOf(cmd, info, a));
  }

  /** One granted access to covered bytes is served by their space. */
  lemma PlainOffer(space: Space, buf: seq<u8>, cmd: Command, info: Sideband, a: Access)
    requires space.Valid() && a.length > 0 && a.pos + a.length <= |buf|
    requires Permitted(space.es, QueryOf(cmd, info, a)) && InMem(space.mem, a.address, a.length)
    ensures Offer(space, buf, QueryOf(cmd, info, a), a) ==
      (space.(mem := if cmd.Write? then Put(space.mem, buf, a) else space.mem),
       if cmd.Read? then Fetched(buf, space.mem, a) else buf, a.length, Ok)
  {
    hide WellPlaced, StatusFrom, Permitted, Served, Space.Valid;
    var q := QueryOf(cmd, info, a);
    PlainServed(space, cmd, info, a);
    assert cmd.Write? ==> MemAfter(space, q, buf, a) == Put(space.mem, buf, a);
    assert cmd.Read? ==> BufAfter(space, q, buf, a) == Fetched(buf, space.mem, a);
  }

  /** One granted access to covered bytes, in the local space or, where that has no registers, in the fallback. */
  lemma PlainStep(global: bool, s: State, cmd: Command, info: Sideband, a: Access)
    requires s.world.Valid() && a.length > 0 && a.pos + a.length <= |s.buf|
    requires Permitted(s.world.Home(global).es, QueryOf(cmd, info, a))
    requires InMem(s.world.Home(global).mem, a.address, a.length)
    requires global ==> Away(s.world.local.mem, a.address, a.length)
    ensures var m := s.world.Home(global).mem;
      Step(s, cmd, info, a) ==
      s.(world := s.world.WithMem(global, if cmd.Write? then Put(m, s.buf, a) else m),
         buf := if cmd.Read? then Fetched(s.buf, m, a) else s.buf,
         count := s.count + a.length,
         response := Ok)
  {
    hide WellPlaced, StatusFrom, Permitted, Served, Offer, Space.Valid, Put, Fetched, Away, InMem;
    PlainOffer(s.world.Home(global), s.buf, cmd, info, a);
    if global {
      NothingLocal(s.world.local, s.buf, cmd, info, a);
    }
  }

  /** Byte `v` at address `x` is the last of the first `n` stream bytes that land there, or the initial one. */
  ghost predicate LastLanded(st: Stream, buf: seq<u8>, m: Memory, n: nat, x: nat, v: u8)
    requires st.Valid() && st.pos + n <= |buf| && x in m
  {
    || (exists t: nat :: st.Wins(t, x, n) && v == buf[st.pos + t])
    || ((forall t: nat :: t < n ==> !st.Lands(t, x)) && v == m[x])
  }

  ghost function StatusAfter(st: Stream, s: State, n: nat): Response
    requires st.Valid()
  {
    if st.Positions(n) == {} then s.response else Ok
  }

  /** State `r` is `s` with the first `n` bytes of the stream written. */
  ghost predicate WroteStream(st: Stream, s: State, r: State, n: nat)
    requires st.Valid() && st.pos + n <= |s.buf|
  {
    && r.world.Home(st.global).mem.Keys == s.world.Home(st.global).mem.Keys
    && r == s.(world := s.world.WithMem(st.global, r.world.Home(st.global).mem),
               count := s.count + |st.Positions(n)|,
               response := StatusAfter(st, s, n))
    && forall x :: x in s.world.Home(st.global).mem ==> LastLanded(st, s.buf, s.world.Home(st.global).mem, n, x, r.world.Home(st.global).mem[x])
  }

  /** State `r` is `s` with the first `n` bytes of the stream read. */
  ghost predicate ReadStream(st: Stream, s: State, r: State, n: nat)
    requires st.Valid() && st.At(s.world)
  {
    && |r.buf| == |s.buf|
    && r == s.(buf := r.buf, count := s.count + |st.Positions(n)|, response := StatusAfter(st, s, n))
    && forall i :: 0 <= i < |s.buf| ==> r.buf[i] == StreamByte(st, s, n, i)
  }

  /** Byte `i` of the buffer after the first `n` bytes of the stream were read. */
  ghost function StreamByte(st: Stream, s: State, n: nat, i: nat): u8
    requires st.Valid() && st.At(s.world) && i < |s.buf|
  {
    if st.pos <= i < st.pos + n && st.Enables(i - st.pos) then s.world.Home(st.global).mem[st.address + (i - st.pos) % st.width]
    else s.buf[i]
  }

  /** An access that carries the stream bytes from `n` on, all of them taking part. */
  ghost predicate Carries(st: Stream, a: Access, n: nat)
    requires st.Valid()
  {
    && a.pos == st.pos + n && 0 < a.length
    && st.address <= a.address && a.address + a.length <= st.address + st.width
    && (forall t: nat :: n <= t < n + a.length ==> st.Enables(t))
    && forall t: nat, x: int :: n <= t < n + a.length ==> (st.Lands(t, x) <==> x == a.address + (t - n))
  }

  lemma MorePositions(st: Stream, n: nat, k: nat)
    requires st.Valid() && forall t: nat :: n <= t < n + k ==> st.Enables(t)
    ensures |st.Positions(n + k)| == |st.Positions(n)| + k
    ensures k > 0 ==> st.Positions(n + k) != {}
  {
    hide Stream.Enables;
    assert st.Positions(n + k) == st.Positions(n) + Interval(n, n + k);
    if k > 0 {
      assert n in st.Positions(n + k);
    }
  }

  lemma SamePositions(st: Stream, n: nat)
    requires st.Valid() && !st.Enables(n)
    ensures st.Positions(n + 1) == st.Positions(n)
  {
  }

  /** The last landing of a byte after `a` carried the stream bytes from `n` on. */
  lemma LandedNext(st: Stream, buf: seq<u8>, m: Memory, now: Memory, n: nat, a: Access, x: nat)
    requires st.Valid() && Carries(st, a, n) && a.pos + a.length <= |buf| && x in m && m.Keys == now.Keys
    requires LastLanded(st, buf, m, n, x, now[x])
    ensures LastLanded(st, buf, m, n + a.length, x, Put(now, buf, a)[x])
  {
    hide Stream.Lands, Stream.Enables;
    var end := n + a.length;
    if a.address <= x < a.address + a.length {
      var t := n + (x - a.address);
      assert st.Lands(t, x);
      assert forall u: nat :: t < u < end ==> !st.Lands(u, x);
      assert st.Wins(t, x, end);
    } else {
      assert forall u: nat :: n <= u < end ==> !st.Lands(u, x);
      if t: nat :| st.Wins(t, x, n) && now[x] == buf[st.pos + t] {
        assert st.Wins(t, x, end);
      } else {
        assert forall t: nat :: t < end ==> !st.Lands(t, x);
      }
    }
  }

  lemma LandedSkip(st: Stream, buf: seq<u8>, m: Memory, n: nat, x: nat, v: u8)
    requires st.Valid() && st.pos + n < |buf| && x in m && !st.Enables(n)
    requires LastLanded(st, buf, m, n, x, v)
    ensures LastLanded(st, buf, m, n + 1, x, v)
  {
    hide Stream.Enables;
    if t: nat :| st.Wins(t, x, n) && v == buf[st.pos + t] {
      assert st.Wins(t, x, n + 1);
    }
  }

  lemma WroteMore(st: Stream, s: State, now: State, info: Sideband, a: Access, n: nat)
    requires st.Valid() && Carries(st, a, n) && a.pos + a.length <= |s.buf| && now.world.Valid()
    requires WroteStream(st, s, now, n) && !Failed(now.response)
    requires Permitted(s.world.Home(st.global).es, QueryOf(Write, info, a)) && st.At(s.world)
    ensures WroteStream(st, s, Step(now, Write, info, a), n + a.length)
  {
    hide Permitted, LastLanded, Step, World.Valid, Stream.Positions;
    PlainStep(st.global, now, Write, info, a);
    MorePositions(st, n, a.length);
    forall x | x in s.world.Home(st.global).mem
      ensures LastLanded(st, s.buf, s.world.Home(st.global).mem, n + a.length, x, Put(now.world.Home(st.global).mem, s.buf, a)[x])
    {
      LandedNext(st, s.buf, s.world.Home(st.global).mem, now.world.Home(st.global).mem, n, a, x);
    }
  }

  lemma ReadMore(st: Stream, s: State, now: State, info: Sideband, a: Access, n: nat)
    requires st.Valid() && Carries(st, a, n) && a.pos + a.length <= |s.buf| && now.world.Valid()
    requires st.At(s.world)
    requires ReadStream(st, s, now, n) && !Failed(now.response)
    requires Permitted(s.world.Home(st.global).es, QueryOf(Read, info, a))
    ensures ReadStream(st, s, Step(now, Read, info, a), n + a.length)
  {
    hide Permitted, Step, World.Valid, Stream.Positions, Stream.Enables;
    PlainStep(st.global, now, Read, info, a);
    MorePositions(st, n, a.length);
    hide Carries, Fetched;
    forall i | 0 <= i < |s.buf|
      ensures Fetched(now.buf, now.world.Home(st.global).mem, a)[i] == StreamByte(st, s, n + a.length, i)
    {
      FetchedByte(st, s, now.buf, a, n, i);
    }
  }

  lemma FetchedByte(st: Stream, s: State, buf: seq<u8>, a: Access, n: nat, i: nat)
    requires st.Valid() && Carries(st, a, n) && |buf| == |s.buf| && i < |buf|
    requires st.At(s.world) && buf[i] == StreamByte(st, s, n, i)
    ensures InMem(s.world.Home(st.global).mem, a.address, a.length)
    ensures Fetched(buf, s.world.Home(st.global).mem, a)[i] == StreamByte(st, s, n + a.length, i)
  {
    hide Stream.Enables;
    if a.pos <= i < a.pos + a.length {
      var t := i - st.pos;
      assert st.Lands(t, a.address + (t - n));
    }
  }

  lemma PulseCarries(st: Stream, p: nat)
    requires st.Valid() && st.enable.None?
    ensures Carries(st, Access(st.address, st.width, st.pos + p * st.width), p * st.width)
  {
    forall t: nat | p * st.width <= t < p * st.width + st.width ensures t % st.width == t - p * st.width {
      DivModUnique(t, st.width, p, t - p * st.width);
    }
  }

  lemma ByteCarries(st: Stream, n: nat)
    requires st.Valid() && st.enable.Some? && st.Enables(n)
    ensures Carries(st, st.ByteAccess(n), n)
  {
  }

  /** State `r` is `s` with the first `n` bytes of the stream written or read. */
  ghost predicate Streamed(st: Stream, cmd: Command, s: State, r: State, n: nat)
    requires st.Valid() && st.pos + n <= |s.buf| && st.At(s.world)
  {
    if cmd.Write? then WroteStream(st, s, r, n) else ReadStream(st, s, r, n)
  }

  lemma NothingStreamed(st: Stream, cmd: Command, s: State)
    requires st.Valid() && st.pos <= |s.buf| && st.At(s.world)
    ensures Streamed(st, cmd, s, s, 0)
  {
    assert st.Positions(0) == {};
  }

  lemma StreamedMore(st: Stream, cmd: Command, s: State, now: State, info: Sideband, a: Access, n: nat)
    requires st.Valid() && Carries(st, a, n) && a.pos + a.length <= |s.buf| && now.world.Valid() && !cmd.Ignore?
    requires st.At(s.world) && s.response.Incomplete?
    requires Streamed(st, cmd, s, now, n) && Permitted(s.world.Home(st.global).es, QueryOf(cmd, info, a))
    ensures !Failed(now.response) && |now.buf| == |s.buf|
    ensures Streamed(st, cmd, s, Step(now, cmd, info, a), n + a.length)
  {
    hide Step, Carries, Permitted, InMem, LastLanded, World.Valid;
    if cmd.Write? {
      WroteMore(st, s, now, info, a, n);
    } else {
      ReadMore(st, s, now, info, a, n);
    }
  }

  lemma StreamedSkip(st: Stream, cmd: Command, s: State, now: State, n: nat)
    requires st.Valid() && st.pos + n < |s.buf| && !st.Enables(n)
    requires st.At(s.world) && Streamed(st, cmd, s, now, n)
    ensures Streamed(st, cmd, s, now, n + 1)
  {
    hide Stream.Enables, Stream.Positions, LastLanded;
    SamePositions(st, n);
    forall x | x in s.world.Home(st.global).mem && cmd.Write?
      ensures LastLanded(st, s.buf, s.world.Home(st.global).mem, n + 1, x, now.world.Home(st.global).mem[x])
    {
      LandedSkip(st, s.buf, s.world.Home(st.global).mem, n, x, now.world.Home(st.global).mem[x]);
    }
  }

  lemma {:induction false} PulsesStreamed(st: Stream, cmd: Command, s: State, info: Sideband, p: nat)
    requires st.Valid() && st.enable.None? && s.world.Valid() && st.pos + p * st.width <= |s.buf|
    requires s.response.Incomplete? && !cmd.Ignore? && st.Plain(s.world, cmd, info, p)
    ensures Streamed(st, cmd, s, Steps(s, cmd, info, st.Part(p)), p * st.width)
  {
    hide Streamed, Step, World.Valid, Space.Valid, Permitted, Carries;
    if p == 0 {
      NothingStreamed(st, cmd, s);
    } else {
      var a := Access(st.address, st.width, st.pos + (p - 1) * st.width);
      assert (p - 1) * st.width + st.width == p * st.width;
      assert st.Part(p) == st.Part(p - 1) + [a];
      assert st.Part(p)[p - 1] == a;
      assert forall i :: 0 <= i < p - 1 ==> st.Part(p)[i] == st.Part(p - 1)[i];
      PulsesStreamed(st, cmd, s, info, p - 1);
      StepsAppend(s, cmd, info, st.Part(p - 1), a);
      PulseCarries(st, p - 1);
      StreamedMore(st, cmd, s, Steps(s, cmd, info, st.Part(p - 1)), info, a, (p - 1) * st.width);
    }
  }

  lemma OneMoreByte(st: Stream, n: nat)
    requires st.Valid() && st.enable.Some?
    ensures st.Bytes(0) == []
    ensures st.Bytes(n + 1) == st.Bytes(n) + if st.Enables(n) then [st.ByteAccess(n)] else []
  {
  }

  /** The accesses of the first `n` enabled bytes are granted. */
  ghost predicate BytesGranted(st: Stream, w: World, cmd: Command, info: Sideband, n: nat)
    requires st.Valid() && st.enable.Some? && w.Valid()
  {
    forall i :: 0 <= i < |st.Bytes(n)| ==> Permitted(w.Home(st.global).es, QueryOf(cmd, info, st.Bytes(n)[i]))
  }

  lemma GrantedBefore(st: Stream, w: World, cmd: Command, info: Sideband, n: nat)
    requires st.Valid() && st.enable.Some? && w.Valid() && BytesGranted(st, w, cmd, info, n + 1)
    ensures BytesGranted(st, w, cmd, info, n)
    ensures st.Enables(n) ==> Permitted(w.Home(st.global).es, QueryOf(cmd, info, st.ByteAccess(n)))
  {
    hide WellPlaced, Permitted, Stream.Bytes, Stream.Enables, Stream.ByteAccess;
    OneMoreByte(st, n);
    var all := st.Bytes(n + 1);
    assert forall i :: 0 <= i < |st.Bytes(n)| ==> all[i] == st.Bytes(n)[i];
    if st.Enables(n) {
      assert all[|st.Bytes(n)|] == st.ByteAccess(n);
    }
  }

  /** The state after the accesses of the first `n` enabled bytes. */
  ghost function AfterBytes(st: Stream, cmd: Command, s: State, info: Sideband, n: nat): State
    requires st.Valid() && st.enable.Some? && s.world.Valid() && st.pos + n <= |s.buf|
  {
    Steps(s, cmd, info, st.Bytes(n))
  }

  lemma OneByteStreamed(st: Stream, cmd: Command, s: State, info: Sideband, n: nat)
    requires st.Valid() && st.enable.Some? && s.world.Valid() && st.pos + n < |s.buf|
    requires s.response.Incomplete? && !cmd.Ignore? && st.At(s.world)
    requires Streamed(st, cmd, s, AfterBytes(st, cmd, s, info, n), n)
    requires st.Enables(n) ==> Permitted(s.world.Home(st.global).es, QueryOf(cmd, info, st.ByteAccess(n)))
    ensures Streamed(st, cmd, s, AfterBytes(st, cmd, s, info, n + 1), n + 1)
  {
    hide Streamed, Step, Steps, Permitted, Carries, WellPlaced, InMem, Enabled, Stream.At, Stream.Bytes;
    OneMoreByte(st, n);
    if st.Enables(n) {
      StepsAppend(s, cmd, info, st.Bytes(n), st.ByteAccess(n));
      ByteCarries(st, n);
      StreamedMore(st, cmd, s, Steps(s, cmd, info, st.Bytes(n)), info, st.ByteAccess(n), n);
    } else {
      assert st.Bytes(n + 1) == st.Bytes(n);
      StreamedSkip(st, cmd, s, Steps(s, cmd, info, st.Bytes(n)), n);
    }
  }

  lemma NoByteStreamed(st: Stream, cmd: Command, s: State, info: Sideband)
    requires st.Valid() && st.enable.Some? && s.world.Valid() && st.pos <= |s.buf| && st.At(s.world)
    ensures Streamed(st, cmd, s, AfterBytes(st, cmd, s, info, 0), 0)
  {
    NothingStreamed(st, cmd, s);
    OneMoreByte(st, 0);
  }

  lemma {:induction false} BytesStreamed(st: Stream, cmd: Command, s: State, info: Sideband, n: nat)
    requires st.Valid() && st.enable.Some? && s.world.Valid() && st.pos + n <= |s.buf|
    requires s.response.Incomplete? && !cmd.Ignore? && st.At(s.world)
    requires BytesGranted(st, s.world, cmd, info, n)
    ensures Streamed(st, cmd, s, AfterBytes(st, cmd, s, info, n), n)
  {
    hide *;
    if n == 0 {
      NoByteStreamed(st, cmd, s, info);
    } else {
      GrantedBefore(st, s.world, cmd, info, n - 1);
      BytesStreamed(st, cmd, s, info, n - 1);
      OneByteStreamed(st, cmd, s, info, n - 1);
    }
  }

  /** A transport whose accesses are all granted and whose window is covered by registers of one space does nothing
  but move the enabled bytes of its stream. */
  lemma TransportMovesStream(st: Stream, cmd: Command, s: State, info: Sideband, length: nat, streaming: nat)
    requires st.Valid() && st.width == (if streaming == 0 then length else streaming) && length > 0 && st.pos + length <= |s.buf|
    requires s.world.Valid() && s.response.Incomplete? && !cmd.Ignore?
    requires st.Plain(s.world, cmd, info, length / st.width)
    ensures length / st.width * st.width <= length
    ensures
      var r := TransportOf(s, cmd, info, st.address, length, streaming, st.pos, st.enable, st.beLength);
      Streamed(st, cmd, s, r, length / st.width * st.width)
  {
    hide Streamed, Steps, WellPlaced, Permitted, InMem;
    var n := length / st.width;
    PulsesInside(length, st.width, n);
    if st.enable.None? {
      PulsesStreamed(st, cmd, s, info, n);
    } else {
      assert st.Bytes(n * st.width) == st.Part(n);
      BytesStreamed(st, cmd, s, info, n * st.width);
    }
  }
}
