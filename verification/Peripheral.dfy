/** Peripherals: transactions with streaming and byte enables on top of register banks. */
module Peripherals {
  import opened ByteOrder
  import Layout
  import opened Registers
  import opened BankSpec
  import opened SparseMemory
  import opened RegisterBanks
  import opened TransportMeans
  import opened TransportSpec
  import opened Wrappers

  const GLOBAL: nat := 0xFFFF_FFFF

  /** Other address spaces, and in all of them what the acting processor does not see. */
  datatype Unreached = Unreached(spaces: map<nat, Space>, rests: map<nat, seq<Remainder>>)

  class Peripheral {
    var registers: map<nat, RegisterBank>

    ghost function AllRegs(): set<Register>
      reads this, registers.Values
    {
      set space, r | space in registers && r in registers[space].Regs() :: r
    }

    ghost predicate Valid()
      reads this, registers.Values, AllRegs()
    {
      && (forall space :: space in registers ==> registers[space].Valid())
      && (forall space, other :: space in registers && other in registers && space != other ==>
            registers[space] != registers[other] && registers[space].Regs() !! registers[other].Regs())
    }

    /** The registers of an address space as one memory; a space without bank has no registers. */
    ghost function SpaceOf(space: nat, cpu: int): Space
      requires Valid()
      reads this, registers.Values, AllRegs()
    {
      if space in registers then Space(registers[space].Map(), registers[space].Contents(cpu)) else Space([], map[])
    }

    ghost function WorldOf(space: nat, cpu: int): World
      requires Valid()
      reads this, registers.Values, AllRegs()
    {
      World(SpaceOf(space, cpu), if space == GLOBAL then Space([], map[]) else SpaceOf(GLOBAL, cpu))
    }

    /** What all registers hold besides the bytes that processor `cpu` sees: configurations and banks of others. */
    ghost function Rests(cpu: int): map<nat, seq<Remainder>>
      reads this, registers.Values, AllRegs()
    {
      map space | space in registers :: registers[space].Rests(cpu)
    }

    /** What a transaction of processor `cpu` to `space` does not reach. */
    ghost function Beyond(space: nat, cpu: int): Unreached
      requires Valid()
      reads this, registers.Values, AllRegs()
    {
      Unreached(map other | other in registers && other != space && other != GLOBAL :: SpaceOf(other, cpu), Rests(cpu))
    }

    ghost function RegsOf(space: nat): set<Register>
      reads this, registers.Values
    {
      if space in registers then registers[space].Regs() else {}
    }

    lemma SpaceIsValid(space: nat, cpu: int)
      requires Valid()
      ensures SpaceOf(space, cpu).Valid()
    {
      if space in registers {
        registers[space].ContentsCovered(cpu);
      }
    }

    lemma WorldIsValid(space: nat, cpu: int)
      requires Valid()
      ensures WorldOf(space, cpu).Valid() && SpaceOf(GLOBAL, cpu).Valid() && SpaceOf(space, cpu).Valid()
    {
      SpaceIsValid(space, cpu);
      SpaceIsValid(GLOBAL, cpu);
    }

    /** Which registers belong where does not change with the values they hold. */
    twostate lemma SameRegs(space: nat)
      requires registers == old(registers) && forall b :: b in registers.Values ==> unchanged(b)
      ensures RegsOf(space) == old(RegsOf(space)) && AllRegs() == old(AllRegs())
    {
      forall other | other in registers ensures registers[other].Regs() == old(registers[other].Regs()) {
        assert registers[other] in registers.Values;
      }
    }

    lemma SomeOfAll(space: nat)
      ensures RegsOf(space) <= AllRegs()
    {
    }

    twostate lemma SameSpace(new space: nat, new cpu: int)
      requires old(Valid()) && registers == old(registers) && space in registers && unchanged(registers[space])
      requires forall r :: r in old(RegsOf(space)) ==> unchanged(r)
      ensures registers[space].Valid() && registers[space].Regs() == old(registers[space].Regs())
      ensures registers[space].Map() == old(registers[space].Map())
      ensures registers[space].Contents(cpu) == old(registers[space].Contents(cpu))
      ensures registers[space].Rests(cpu) == old(registers[space].Rests(cpu))
    {
      hide WellPlaced, RegisterBank.Valid, RegisterBank.Contents, RegisterBank.Map, RegisterBank.Rests;
      var b := registers[space];
      assert b.Regs() == old(b.Regs()) == old(RegsOf(space));
      b.NothingChanged(cpu);
    }

    /** When only registers of one bank changed, the other address spaces are as before. */
    twostate lemma OneSpaceChanged(new space: nat, new cpu: int)
      requires old(Valid()) && registers == old(registers)
      requires forall b :: b in registers.Values ==> unchanged(b)
      requires forall r :: r in old(AllRegs()) && r !in old(RegsOf(space)) ==> unchanged(r)
      requires space in registers ==> registers[space].Valid() && registers[space].Rests(cpu) == old(registers[space].Rests(cpu))
      ensures Valid() && RegsOf(space) == old(RegsOf(space)) && AllRegs() == old(AllRegs())
      ensures Rests(cpu) == old(Rests(cpu))
      ensures forall other :: other != space ==> SpaceOf(other, cpu) == old(SpaceOf(other, cpu))
    {
      hide WellPlaced, RegisterBank.Valid, RegisterBank.Contents, RegisterBank.Map, RegisterBank.Regs, RegisterBank.Rests;
      SameRegs(space);
      forall other | other in registers
        ensures registers[other].Regs() == old(registers[other].Regs()) && registers[other].Valid()
        ensures registers[other].Rests(cpu) == old(registers[other].Rests(cpu))
        ensures other != space ==> registers[other].Map() == old(registers[other].Map())
        ensures other != space ==> registers[other].Contents(cpu) == old(registers[other].Contents(cpu))
      {
        assert registers[other] in registers.Values;
        SameRegs(other);
        if other != space {
          SomeOfAll(other);
          SameSpace(other, cpu);
        }
      }
    }

    twostate lemma OthersUntouched(new space: nat, new cpu: int)
      requires old(Valid()) && Valid() && registers == old(registers)
      requires forall other :: other != space && other != GLOBAL ==> SpaceOf(other, cpu) == old(SpaceOf(other, cpu))
      requires Rests(cpu) == old(Rests(cpu))
      ensures Beyond(space, cpu) == old(Beyond(space, cpu))
    {
      hide SpaceOf, Rests;
    }

    twostate lemma NoSpaceChanged(cpu: int)
      requires old(Valid()) && registers == old(registers)
      requires forall b :: b in registers.Values ==> unchanged(b)
      requires forall r :: r in old(AllRegs()) ==> unchanged(r)
      ensures Valid() && AllRegs() == old(AllRegs())
      ensures forall space :: RegsOf(space) == old(RegsOf(space)) && SpaceOf(space, cpu) == old(SpaceOf(space, cpu))
      ensures forall space :: Beyond(space, cpu) == old(Beyond(space, cpu))
    {
      hide WellPlaced, RegisterBank.Valid, RegisterBank.Contents, RegisterBank.Map, RegisterBank.Regs, RegisterBank.Rests;
      SameRegs(GLOBAL);
      forall space | space in registers
        ensures registers[space].Regs() == old(registers[space].Regs()) && registers[space].Valid()
        ensures registers[space].Map() == old(registers[space].Map())
        ensures registers[space].Contents(cpu) == old(registers[space].Contents(cpu))
        ensures registers[space].Rests(cpu) == old(registers[space].Rests(cpu))
      {
        assert registers[space] in registers.Values;
        SomeOfAll(space);
        SameSpace(space, cpu);
      }
    }

    twostate lemma SameWorld(new space: nat, new cpu: int)
      requires old(Valid()) && Valid() && SpaceOf(space, cpu) == old(SpaceOf(space, cpu))
      requires SpaceOf(GLOBAL, cpu) == old(SpaceOf(GLOBAL, cpu))
      ensures WorldOf(space, cpu) == old(WorldOf(space, cpu))
    {
      hide SpaceOf;
    }

    /** Offer a transaction to the registers of one address space. */
    method OfferToBank(tx: Payload, info: Sideband, space: nat) returns (bytes: nat)
      requires Valid() && tx.HasData() && tx.length > 0 && (tx.streaming == 0 || tx.streaming == tx.length)
      requires tx.response.Incomplete?
      modifies RegsOf(space), tx`address, tx`length, tx`streaming, tx`dataPtr, tx`response, tx.buffer
      ensures Valid() && RegsOf(space) == old(RegsOf(space)) && AllRegs() == old(AllRegs())
      ensures tx.address == old(tx.address) && tx.length == old(tx.length)
      ensures tx.streaming == old(tx.streaming) && tx.dataPtr == old(tx.dataPtr)
      ensures forall other :: other != space ==> SpaceOf(other, info.cpu) == old(SpaceOf(other, info.cpu))
      ensures Rests(info.cpu) == old(Rests(info.cpu))
      ensures old(SpaceOf(space, info.cpu)).Valid()
      ensures (SpaceOf(space, info.cpu), tx.buffer[..], bytes, tx.response)
              == Offer(old(SpaceOf(space, info.cpu)), old(tx.buffer[..]),
                       Query(tx.command, tx.address, tx.length, Incomplete, info),
                       Access(tx.address, tx.length, tx.dataPtr))
    {
      hide WellPlaced, RegisterBank.Valid, RegisterBank.Contents, RegisterBank.Map, RegisterBank.Rests, Offer, Effect, ServedFrom, StatusFrom;
      ghost var q := Query(tx.command, tx.address, tx.length, Incomplete, info);
      ghost var a := Access(tx.address, tx.length, tx.dataPtr);
      ghost var s, buf := SpaceOf(space, info.cpu), tx.buffer[..];
      SpaceIsValid(space, info.cpu);
      bytes := 0;
      if space in registers {
        bytes := registers[space].Receive(tx, info);
        OfferIsEffect(s, buf, q, a, registers[space].Contents(info.cpu), tx.buffer[..]);
      } else {
        NothingThere(q, buf, a);
      }
      OneSpaceChanged(space, info.cpu);
    }

    /** The local address space first; if no register there took the access, the global one. */
    method ForwardToRegs(tx: Payload, info: Sideband, space: nat) returns (bytes: nat)
      requires Valid() && tx.HasData() && tx.length > 0 && (tx.streaming == 0 || tx.streaming == tx.length)
      requires tx.response.Incomplete?
      modifies RegsOf(space), RegsOf(GLOBAL), tx`address, tx`length, tx`streaming, tx`dataPtr, tx`response, tx.buffer
      ensures Valid() && AllRegs() == old(AllRegs())
      ensures RegsOf(space) == old(RegsOf(space)) && RegsOf(GLOBAL) == old(RegsOf(GLOBAL))
      ensures tx.address == old(tx.address) && tx.length == old(tx.length)
      ensures tx.streaming == old(tx.streaming) && tx.dataPtr == old(tx.dataPtr)
      ensures forall other :: other != space && other != GLOBAL ==>
        SpaceOf(other, info.cpu) == old(SpaceOf(other, info.cpu))
      ensures Rests(info.cpu) == old(Rests(info.cpu))
      ensures old(WorldOf(space, info.cpu)).Valid()
      ensures (WorldOf(space, info.cpu), tx.buffer[..], bytes, tx.response)
              == Routed(old(WorldOf(space, info.cpu)), old(tx.buffer[..]),
                         Query(tx.command, tx.address, tx.length, Incomplete, info),
                         Access(tx.address, tx.length, tx.dataPtr))
      decreases space != GLOBAL
    {
      hide Offer, Valid, RegsOf, AllRegs, SpaceOf, Rests, Space.Valid;
      ghost var q := Query(tx.command, tx.address, tx.length, Incomplete, info);
      ghost var a := Access(tx.address, tx.length, tx.dataPtr);
      WorldIsValid(space, info.cpu);
      RoutedWithoutFallback(SpaceOf(GLOBAL, info.cpu), tx.buffer[..], q, a);
      bytes := OfferToBank(tx, info, space);
      if space != GLOBAL && !Success(tx.response) && !Failed(tx.response) {
        RoutedWithoutFallback(SpaceOf(GLOBAL, info.cpu), tx.buffer[..], q, a);
        var more := ForwardToRegs(tx, info, GLOBAL);
        bytes := bytes + more;
      }
    }

    /** A plain access: no streaming, no byte enables. */
    method Receive(tx: Payload, info: Sideband, space: nat, ghost count: nat) returns (bytes: nat)
      requires Valid() && tx.HasData() && tx.length > 0 && tx.response.Incomplete?
      modifies RegsOf(space), RegsOf(GLOBAL), tx`address, tx`length, tx`streaming, tx`dataPtr, tx`response, tx.buffer
      ensures Valid() && AllRegs() == old(AllRegs())
      ensures RegsOf(space) == old(RegsOf(space)) && RegsOf(GLOBAL) == old(RegsOf(GLOBAL))
      ensures tx.address == old(tx.address) && tx.length == old(tx.length)
      ensures tx.streaming == old(tx.streaming) && tx.dataPtr == old(tx.dataPtr)
      ensures Beyond(space, info.cpu) == old(Beyond(space, info.cpu))
      ensures old(WorldOf(space, info.cpu)).Valid()
      ensures var s := old(State(WorldOf(space, info.cpu), tx.buffer[..], count, Incomplete));
        State(WorldOf(space, info.cpu), tx.buffer[..], count + bytes, tx.response) ==
        if tx.streaming != 0 && tx.streaming != tx.length then s.(response := BurstError)
        else if tx.byteEnable.Some? || tx.byteEnableLength != 0 then s.(response := ByteEnableError)
        else Step(s, tx.command, info, Access(tx.address, tx.length, tx.dataPtr))
      ensures (tx.streaming == 0 || tx.streaming == tx.length) && tx.byteEnable.None? && tx.byteEnableLength == 0 ==>
        Answered(old(WorldOf(space, info.cpu)), old(tx.buffer[..]), tx.command, info, tx.address, tx.length, tx.dataPtr,
                 WorldOf(space, info.cpu), tx.buffer[..], bytes, tx.response)
    {
      hide Routed, Valid, RegsOf, AllRegs, SpaceOf, Beyond, Rests, World.Valid, Space.Valid, Answered;
      WorldIsValid(space, info.cpu);
      StepMeans(State(WorldOf(space, info.cpu), tx.buffer[..], count, Incomplete), tx.command, info,
                Access(tx.address, tx.length, tx.dataPtr));
      if tx.streaming != 0 && tx.streaming != tx.length {
        tx.response := BurstError;
        NoSpaceChanged(info.cpu);
        return 0;
      }
      if tx.byteEnable.Some? || tx.byteEnableLength != 0 {
        tx.response := ByteEnableError;
        NoSpaceChanged(info.cpu);
        return 0;
      }
      bytes := ForwardToRegs(tx, info, space);
      OthersUntouched(space, info.cpu);
      if Success(tx.response) || Failed(tx.response) {
        return;
      }
      tx.response := if tx.command.Ignore? then Ok else AddressError;
      bytes := if tx.command.Ignore? then tx.length else 0;
    }

    ghost function StateOf(space: nat, info: Sideband, tx: Payload, count: nat): State
      requires Valid()
      reads this, registers.Values, AllRegs(), tx, tx.buffer
    {
      State(WorldOf(space, info.cpu), tx.buffer[..], count, tx.response)
    }

    /** Make the transaction a plain access to one byte and let the peripheral receive it. */
    method ReceiveByte(tx: Payload, info: Sideband, space: nat, address: nat, dataPtr: nat, count: nat)
      returns (nbytes: nat)
      requires Valid() && dataPtr < tx.buffer.Length
      modifies RegsOf(space), RegsOf(GLOBAL), tx, tx.buffer
      ensures Valid() && AllRegs() == old(AllRegs()) && tx.command == old(tx.command)
      ensures RegsOf(space) == old(RegsOf(space)) && RegsOf(GLOBAL) == old(RegsOf(GLOBAL))
      ensures Beyond(space, info.cpu) == old(Beyond(space, info.cpu))
      ensures old(WorldOf(space, info.cpu)).Valid()
      ensures StateOf(space, info, tx, nbytes)
              == Step(old(StateOf(space, info, tx, count)), tx.command, info, Access(address, 1, dataPtr))
    {
      hide Routed, Valid, RegsOf, AllRegs, SpaceOf, Beyond, Rests, World.Valid, Space.Valid, Answered;
      tx.address := address;
      tx.dataPtr := dataPtr;
      tx.length := 1;
      tx.streaming := 1;
      tx.byteEnable := None;
      tx.byteEnableLength := 0;
      tx.response := Incomplete;
      NoSpaceChanged(info.cpu);
      var n := Receive(tx, info, space, count);
      nbytes := count + n;
    }

    /** Let the peripheral receive one pulse of a transaction without byte enables. */
    method ReceivePulse(tx: Payload, info: Sideband, space: nat, dataPtr: nat, swidth: nat, count: nat)
      returns (nbytes: nat)
      requires Valid() && swidth > 0 && dataPtr + swidth <= tx.buffer.Length
      requires tx.byteEnable.None? && (tx.streaming == 0 || tx.streaming == swidth)
      modifies RegsOf(space), RegsOf(GLOBAL), tx`address, tx`length, tx`streaming, tx`dataPtr, tx`response, tx.buffer
      ensures Valid() && AllRegs() == old(AllRegs())
      ensures RegsOf(space) == old(RegsOf(space)) && RegsOf(GLOBAL) == old(RegsOf(GLOBAL))
      ensures Beyond(space, info.cpu) == old(Beyond(space, info.cpu))
      ensures tx.address == old(tx.address) && tx.streaming == old(tx.streaming)
      ensures old(WorldOf(space, info.cpu)).Valid()
      ensures StateOf(space, info, tx, nbytes) ==
        if tx.byteEnableLength != 0 then old(StateOf(space, info, tx, count)).(response := ByteEnableError)
        else Step(old(StateOf(space, info, tx, count)), tx.command, info, Access(tx.address, swidth, dataPtr))
    {
      hide Routed, Valid, RegsOf, AllRegs, SpaceOf, Beyond, Rests, World.Valid, Space.Valid, Answered;
      tx.dataPtr := dataPtr;
      tx.length := swidth;
      tx.response := Incomplete;
      NoSpaceChanged(info.cpu);
      var n := Receive(tx, info, space, count);
      nbytes := count + n;
    }

    /** One pulse of a transport with byte enables: one access for each enabled byte, until one fails. */
    method EnabledPulse(tx: Payload, info: Sideband, space: nat, addr: nat, ptr: nat, swidth: nat, pulse: nat,
                        enable: seq<u8>, beLength: nat, beStart: nat, count: nat, ghost s0: State)
      returns (nbytes: nat, beIndex: nat)
      requires Valid() && swidth > 0 && 0 < beLength <= |enable| && beStart == pulse * swidth
      requires ptr + beStart + swidth <= tx.buffer.Length
      requires s0.world.Valid() && |s0.buf| == tx.buffer.Length && !Failed(tx.response)
      requires StateOf(space, info, tx, count)
               == Steps(s0, tx.command, info, EnabledBytes(addr, swidth, ptr, enable, beLength, beStart))
      modifies RegsOf(space), RegsOf(GLOBAL), tx, tx.buffer
      ensures Valid() && AllRegs() == old(AllRegs()) && tx.command == old(tx.command)
      ensures RegsOf(space) == old(RegsOf(space)) && RegsOf(GLOBAL) == old(RegsOf(GLOBAL))
      ensures Beyond(space, info.cpu) == old(Beyond(space, info.cpu))
      ensures StateOf(space, info, tx, nbytes)
              == Steps(s0, tx.command, info, EnabledBytes(addr, swidth, ptr, enable, beLength, beStart + swidth))
      ensures !Failed(tx.response) ==> beIndex == beStart + swidth
      ensures tx.response.Incomplete? ==> unchanged(tx) && nbytes == count
    {
      hide Steps, Step, WellPlaced, WorldOf, SpaceOf, Beyond;
      nbytes := count;
      beIndex := beStart;
      var byte := 0;
      while byte < swidth && !Failed(tx.response)
        invariant byte <= swidth && beIndex == beStart + byte
        invariant Valid() && AllRegs() == old(AllRegs()) && tx.command == old(tx.command)
        invariant RegsOf(space) == old(RegsOf(space)) && RegsOf(GLOBAL) == old(RegsOf(GLOBAL))
        invariant Beyond(space, info.cpu) == old(Beyond(space, info.cpu))
        invariant StateOf(space, info, tx, nbytes)
                  == Steps(s0, tx.command, info, EnabledBytes(addr, swidth, ptr, enable, beLength, beIndex))
        invariant tx.response.Incomplete? ==> unchanged(tx) && nbytes == count
      {
        ghost var done := EnabledBytes(addr, swidth, ptr, enable, beLength, beIndex);
        if enable[beIndex % beLength] != 0 {
          Layout.DivModUnique(beIndex, swidth, pulse, byte);
          ghost var a := Access(addr + byte, 1, ptr + beIndex);
          assert EnabledBytes(addr, swidth, ptr, enable, beLength, beIndex + 1) == done + [a];
          StepsAppend(s0, tx.command, info, done, a);
          nbytes := ReceiveByte(tx, info, space, addr + byte, ptr + beStart + byte, nbytes);
        } else {
          assert EnabledBytes(addr, swidth, ptr, enable, beLength, beIndex + 1) == done;
        }
        beIndex := beIndex + 1;
        byte := byte + 1;
      }
      if Failed(tx.response) {
        ghost var done := EnabledBytes(addr, swidth, ptr, enable, beLength, beIndex);
        ghost var more := BytesExtend(addr, swidth, ptr, enable, beLength, beIndex, beStart + swidth);
        StepsStopped(s0, tx.command, info, done, more);
      }
    }

    /** One pulse of a transport. */
    method TransportPulse(tx: Payload, info: Sideband, space: nat, addr: nat, ptr: nat, swidth: nat, pulse: nat,
                          be: Option<seq<u8>>, beLength: nat, beStart: nat, count: nat, ghost s0: State)
      returns (nbytes: nat, beIndex: nat)
      requires Valid() && swidth > 0 && (be.Some? ==> 0 < beLength <= |be.value| && beStart == pulse * swidth)
      requires ptr + pulse * swidth + swidth <= tx.buffer.Length
      requires s0.world.Valid() && |s0.buf| == tx.buffer.Length && !Failed(tx.response)
      requires be.None? ==> tx.address == addr && tx.byteEnable.None? && tx.byteEnableLength == beLength
      requires be.None? ==> tx.streaming == 0 || tx.streaming == swidth
      requires StateOf(space, info, tx, count)
               == AfterPulses(s0, tx.command, info, addr, swidth, ptr, be, beLength, pulse)
      modifies RegsOf(space), RegsOf(GLOBAL), tx, tx.buffer
      ensures Valid() && AllRegs() == old(AllRegs()) && tx.command == old(tx.command)
      ensures RegsOf(space) == old(RegsOf(space)) && RegsOf(GLOBAL) == old(RegsOf(GLOBAL))
      ensures Beyond(space, info.cpu) == old(Beyond(space, info.cpu))
      ensures (pulse + 1) * swidth == pulse * swidth + swidth
      ensures StateOf(space, info, tx, nbytes)
              == AfterPulses(s0, tx.command, info, addr, swidth, ptr, be, beLength, pulse + 1)
      ensures be.None? ==> !tx.response.Incomplete? && tx.address == addr && tx.streaming == old(tx.streaming)
      ensures be.None? ==> tx.byteEnable.None? && tx.byteEnableLength == beLength
      ensures be.Some? && !Failed(tx.response) ==> beIndex == (pulse + 1) * swidth
      ensures tx.response.Incomplete? ==> unchanged(tx) && nbytes == count
    {
      hide Steps, Step, Valid, RegsOf, AllRegs, WorldOf, Beyond, EnabledBytes, Pulses;
      assert (pulse + 1) * swidth == pulse * swidth + swidth;
      beIndex := beStart;
      if be.None? {
        hide AfterPulses;
        PlainPulse(s0, tx.command, info, addr, swidth, ptr, beLength, pulse);
        nbytes := ReceivePulse(tx, info, space, ptr + pulse * swidth, swidth, count);
      } else {
        nbytes, beIndex := EnabledPulse(tx, info, space, addr, ptr, swidth, pulse, be.value, beLength, beStart, count, s0);
      }
    }

    /** All pulses of a transport, until an access fails. */
    method TransportPulses(tx: Payload, info: Sideband, space: nat, npulses: nat, swidth: nat, ghost s0: State)
      returns (nbytes: nat)
      requires Valid() && tx.response.Incomplete? && s0 == StateOf(space, info, tx, 0)
      requires swidth > 0 && tx.dataPtr + npulses * swidth <= tx.buffer.Length
      requires tx.byteEnable.Some? ==> 0 < tx.byteEnableLength <= |tx.byteEnable.value|
      requires tx.streaming == 0 || tx.streaming == swidth
      modifies RegsOf(space), RegsOf(GLOBAL), tx, tx.buffer
      ensures Valid() && AllRegs() == old(AllRegs()) && tx.command == old(tx.command)
      ensures s0.world.Valid()
      ensures RegsOf(space) == old(RegsOf(space)) && RegsOf(GLOBAL) == old(RegsOf(GLOBAL))
      ensures Beyond(space, info.cpu) == old(Beyond(space, info.cpu))
      ensures StateOf(space, info, tx, nbytes)
              == old(AfterPulses(s0, tx.command, info, tx.address, swidth, tx.dataPtr, tx.byteEnable,
                                 tx.byteEnableLength, npulses))
      ensures tx.response.Incomplete? ==> unchanged(tx) && nbytes == 0
    {
      hide AfterPulses, Step, Valid, RegsOf, AllRegs, WorldOf, Beyond;
      WorldIsValid(space, info.cpu);
      var addr, ptr, be, beLength, beIndex := tx.address, tx.dataPtr, tx.byteEnable, tx.byteEnableLength, 0;
      ghost var cmd := tx.command;
      nbytes := 0;
      var pulse := 0;
      NoPulseYet(s0, cmd, info, addr, swidth, ptr, be, beLength);
      PulsesStopped(s0, cmd, info, addr, swidth, ptr, be, beLength, 0, npulses);
      while pulse < npulses && !Failed(tx.response)
        invariant pulse <= npulses && tx.command == cmd && pulse * swidth <= npulses * swidth
        invariant Valid() && AllRegs() == old(AllRegs())
        invariant RegsOf(space) == old(RegsOf(space)) && RegsOf(GLOBAL) == old(RegsOf(GLOBAL))
        invariant Beyond(space, info.cpu) == old(Beyond(space, info.cpu))
        invariant be.None? ==> tx.address == addr && tx.byteEnable.None? && tx.byteEnableLength == beLength
        invariant be.None? ==> tx.streaming == old(tx.streaming)
        invariant be.Some? && !Failed(tx.response) ==> beIndex == pulse * swidth
        invariant StateOf(space, info, tx, nbytes) == AfterPulses(s0, cmd, info, addr, swidth, ptr, be, beLength, pulse)
        invariant tx.response.Incomplete? ==> unchanged(tx) && nbytes == 0
      {
        PulsesStopped(s0, cmd, info, addr, swidth, ptr, be, beLength, pulse + 1, npulses);
        assert (pulse + 1) * swidth == pulse * swidth + swidth;
        nbytes, beIndex := TransportPulse(tx, info, space, addr, ptr, swidth, pulse, be, beLength, beIndex, nbytes, s0);
        pulse := pulse + 1;
      }
      PulsesStopped(s0, cmd, info, addr, swidth, ptr, be, beLength, pulse, npulses);
    }

    /** Transport a transaction: all pulses of the stream, all enabled bytes of each pulse, until an access fails.

    No result stands for the error that the source reports when no access was made at all. */
    method Transport(tx: Payload, info: Sideband, space: nat) returns (r: Option<nat>)
      requires Valid() && tx.HasData() && tx.length > 0 && tx.response.Incomplete?
      requires tx.byteEnable.Some? ==> 0 < tx.byteEnableLength <= |tx.byteEnable.value|
      modifies RegsOf(space), RegsOf(GLOBAL), tx, tx.buffer
      ensures Valid() && AllRegs() == old(AllRegs()) && old(WorldOf(space, info.cpu)).Valid()
      ensures Beyond(space, info.cpu) == old(Beyond(space, info.cpu))
      ensures tx.command == old(tx.command) && tx.address == old(tx.address) && tx.dataPtr == old(tx.dataPtr)
      ensures tx.length == old(tx.length) && tx.byteEnable == old(tx.byteEnable)
      ensures tx.byteEnableLength == old(tx.byteEnableLength)
      ensures tx.streaming == if r.Some? then Width(tx.length, old(tx.streaming)) else old(tx.streaming)
      ensures r.None? <==> tx.response.Incomplete?
      ensures StateOf(space, info, tx, if r.Some? then r.value else 0)
              == TransportOf(old(StateOf(space, info, tx, 0)), tx.command, info, tx.address, tx.length,
                             old(tx.streaming), tx.dataPtr, tx.byteEnable, tx.byteEnableLength)
      ensures Ends(old(StateOf(space, info, tx, 0)), StateOf(space, info, tx, if r.Some? then r.value else 0), tx.command,
                   tx.address, tx.length, old(tx.streaming), tx.byteEnable, tx.byteEnableLength)
    {
      hide AfterPulses, Valid, RegsOf, AllRegs, WorldOf, Beyond, Ends;
      WorldIsValid(space, info.cpu);
      TransportEnds(StateOf(space, info, tx, 0), tx.command, info, tx.address, tx.length, tx.streaming, tx.dataPtr,
                    tx.byteEnable, tx.byteEnableLength);
      var addr, ptr, length, swidth := tx.address, tx.dataPtr, tx.length, tx.streaming;
      var be, beLength := tx.byteEnable, tx.byteEnableLength;
      if swidth == 0 {
        swidth := length;
      }
      var npulses := length / swidth;
      PulsesInside(length, swidth, npulses);
      var nbytes := TransportPulses(tx, info, space, npulses, swidth, StateOf(space, info, tx, 0));
      if tx.response.Incomplete? {
        return None;
      }
      label done:
      tx.address := addr;
      tx.dataPtr := ptr;
      tx.length := length;
      tx.streaming := swidth;
      tx.byteEnable := be;
      tx.byteEnableLength := beLength;
      NoSpaceChanged@done(info.cpu);
      assert WorldOf(space, info.cpu) == old@done(WorldOf(space, info.cpu)) by {
        SameWorld@done(space, info.cpu);
      }
      r := Some(nbytes);
    }
  }

  /** What a bank promises about a transaction is what the offer to its space says. */
  lemma OfferIsEffect(s: Space, buf: seq<u8>, q: Query, a: Access, m: Memory, buf': seq<u8>)
    requires s.Valid() && a.length == q.length && a.address == q.address && a.pos + a.length <= |buf|
    requires Effect(q.command, s.mem, buf, a.pos - a.address, ServedFrom(s.es, 0, q), m, buf')
    ensures Offer(s, buf, q, a) == (Space(s.es, m), buf', |ServedFrom(s.es, 0, q)|, StatusFrom(s.es, 0, q))
  {
    hide StatusFrom, ServedFrom, StoredAt, LoadedAt, WellPlaced;
  }

  lemma RoutedWithoutFallback(s: Space, buf: seq<u8>, q: Query, a: Access)
    requires s.Valid() && q.response.Incomplete?
    requires a.length == q.length && a.address == q.address && a.pos + a.length <= |buf|
    ensures Space([], map[]).Valid()
    ensures Routed(World(s, Space([], map[])), buf, q, a) ==
      var (s', buf', n, status) := Offer(s, buf, q, a);
      (World(s', Space([], map[])), buf', n, status)
  {
    hide Offer;
    var (s', buf', n, status) := Offer(s, buf, q, a);
    NothingThere(q, buf', a);
  }

  lemma NothingThere(q: Query, buf: seq<u8>, a: Access)
    requires a.length == q.length && a.address == q.address && a.pos + a.length <= |buf| && q.response.Incomplete?
    ensures Space([], map[]).Valid()
    ensures Offer(Space([], map[]), buf, q, a) == (Space([], map[]), buf, 0, Incomplete)
  {
    assert Served([], q) == {};
    EffectOfNothing(q.command, map[], buf, a.pos - a.address);
    OfferIsEffect(Space([], map[]), buf, q, a, map[], buf);
  }
}
