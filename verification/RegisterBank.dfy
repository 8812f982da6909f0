/** A bank of registers: a map from offsets to registers that takes bus transactions apart. */
module RegisterBanks {
  import opened ByteOrder
  import opened Layout
  import opened Registers
  import opened BankSpec
  import opened Wrappers

  datatype Entry = Entry(base: nat, reg: Register)

  /** The outcomes of adding a register. The last one leaves the register in the map. */
  datatype Outcome = Inserted | OverlapError | AccessSizeError

  class RegisterBank {
    /** The map entries in ascending order of their offsets. */
    var entries: seq<Entry>
    var alignedOnly: Option<bool>
    var naturalOnly: Option<bool>
    var accessSize: Option<(nat, nat)>

    ghost function Regs(): set<Register>
      reads this
    {
      set e | e in entries :: e.reg
    }

    ghost function Map(): (es: seq<Mapped>)
      reads this, Regs()
      ensures |es| == |entries|
    {
      seq(|entries|, i requires 0 <= i < |entries| reads this, Regs() =>
        Mapped(entries[i].base, entries[i].reg.geo, entries[i].reg.rules))
    }

    ghost predicate Valid()
      reads this, Regs()
    {
      && (forall i :: 0 <= i < |entries| ==> entries[i].reg.Valid())
      && (forall i, j :: 0 <= i < j < |entries| ==> entries[i].reg != entries[j].reg)
      && WellPlaced(Map())
    }

    /** The images of the registers as processor `cpu` sees them. */
    ghost function Images(cpu: int): seq<Memory>
      requires Valid()
      reads this, Regs()
    {
      seq(|entries|, i requires 0 <= i < |entries| && Valid() reads this, Regs() =>
        entries[i].reg.Image(entries[i].reg.Slot(cpu)))
    }

    lemma ImagesFit(cpu: int)
      requires Valid()
      ensures Fits(Map(), Images(cpu))
    {
      forall i | 0 <= i < |entries| ensures forall k: nat :: k in Images(cpu)[i] <==> Map()[i].geo.Hit(k) {
        var r := entries[i].reg;
        ImageKeys(r.geo, r.endian, r.Row(r.Slot(cpu)));
      }
    }

    /** The bank as the sparse byte memory that processor `cpu` sees. */
    ghost function Contents(cpu: int): Memory
      requires Valid()
      reads this, Regs()
    {
      ImagesFit(cpu);
      View(Map(), Images(cpu))
    }

    lemma ContentsCovered(cpu: int)
      requires Valid()
      ensures forall a: nat :: a in Contents(cpu) <==> Covered(Map(), a)
    {
      ImagesFit(cpu);
    }

    /** What the registers hold besides the bytes that processor `cpu` sees. */
    ghost function Rests(cpu: int): seq<Remainder>
      reads this, Regs()
    {
      seq(|entries|, i requires 0 <= i < |entries| reads this, Regs() => entries[i].reg.Rest(cpu))
    }

    /** All processors see the same bytes of an unbanked register. */
    lemma UnbankedBytesAreShared(i: nat, a: nat, cpu: int, other: int)
      requires Valid() && i < |entries| && Map()[i].At(a) && !entries[i].reg.banked
      ensures a in Contents(cpu) && a in Contents(other) && Contents(other)[a] == Contents(cpu)[a]
    {
      hide WellPlaced, Register.Image, View, Mapped.At, Register.Valid;
      ImagesFit(cpu);
      ImagesFit(other);
      SameImageSameByte(Map(), Images(cpu), Images(other), i, a);
    }

    /** An access of one processor does not change what another one sees in a banked register. */
    twostate lemma BankedBytesAreSeparate(new i: nat, new a: nat, new cpu: int, new other: int)
      requires old(Valid()) && Valid() && Map() == old(Map()) && entries == old(entries)
      requires Rests(cpu) == old(Rests(cpu)) && i < |entries| && Map()[i].At(a)
      requires old(entries[i].reg.banked) && other != cpu
      ensures a in Contents(other) && a in old(Contents(other)) && Contents(other)[a] == old(Contents(other))[a]
    {
      hide WellPlaced, View, Mapped.At, Register.Valid, RowImage, Fits;
      ImagesFit(other);
      OldImagesFit(other);
      var r := entries[i].reg;
      assert Rests(cpu)[i] == old(Rests(cpu))[i];
      r.OtherRow(cpu, other);
      SameImageSameByte(Map(), Images(other), old(Images(other)), i, a);
    }

    /** Which registers are banked. */
    ghost function Banked(): seq<bool>
      reads this, Regs()
    {
      seq(|entries|, i requires 0 <= i < |entries| reads this, Regs() => entries[i].reg.banked)
    }

    /** The addresses at which all processors share their bytes. */
    ghost function Shared(): set<nat>
      requires Valid()
      reads this, Regs()
    {
      SharedAddresses(Map(), Banked())
    }

    /** What processor `other` sees of an access of processor `cpu`. */
    twostate lemma SeenByOther(new cpu: int, new other: int)
      requires old(Valid()) && Valid() && Map() == old(Map()) && entries == old(entries)
      requires Rests(cpu) == old(Rests(cpu)) && other != cpu
      ensures Shared() == old(Shared()) && Contents(other).Keys == old(Contents(other)).Keys
      ensures forall a :: a in Contents(other) ==>
        && a in old(Contents(other)) && a in Contents(cpu) && a in old(Contents(cpu))
        && if a in Shared() then Contents(other)[a] == Contents(cpu)[a] && old(Contents(other))[a] == old(Contents(cpu))[a]
           else Contents(other)[a] == old(Contents(other))[a]
    {
      hide WellPlaced, View, RowImage, Fits, SharedAddresses;
      ImagesFit(cpu);
      ImagesFit(other);
      OldImagesFit(cpu);
      OldImagesFit(other);
      SameBanked(cpu);
      SameKeys(Map(), Images(other), old(Images(other)));
      forall i | 0 <= i < |entries|
        ensures if Banked()[i] then Images(other)[i] == old(Images(other))[i]
                else old(Images(other))[i] == old(Images(cpu))[i] && Images(other)[i] == Images(cpu)[i]
      {
        SameRow(i, cpu, other);
      }
      forall a | a in Contents(other)
        ensures a in old(Contents(other)) && a in Contents(cpu) && a in old(Contents(cpu))
        ensures if a in Shared()
          then Contents(other)[a] == Contents(cpu)[a] && old(Contents(other))[a] == old(Contents(cpu))[a]
          else Contents(other)[a] == old(Contents(other))[a]
      {
        OtherView(Map(), Banked(), old(Images(cpu)), Images(cpu), old(Images(other)), Images(other), a);
      }
    }

    twostate lemma SameBanked(cpu: int)
      requires entries == old(entries) && Rests(cpu) == old(Rests(cpu))
      ensures Banked() == old(Banked())
    {
      forall i | 0 <= i < |entries| ensures Banked()[i] == old(Banked()[i]) {
        assert Banked()[i] == Rests(cpu)[i].banked;
        assert old(Banked()[i]) == old(Rests(cpu))[i].banked;
      }
    }

    twostate lemma SameRow(new i: nat, new cpu: int, new other: int)
      requires old(Valid()) && Valid() && entries == old(entries) && i < |entries| && other != cpu
      requires Rests(cpu) == old(Rests(cpu))
      ensures if entries[i].reg.banked then Images(other)[i] == old(Images(other))[i]
              else old(Images(other))[i] == old(Images(cpu))[i] && Images(other)[i] == Images(cpu)[i]
    {
      hide WellPlaced, RowImage;
      var r := entries[i].reg;
      assert Rests(cpu)[i] == old(Rests(cpu))[i];
      if r.banked {
        r.OtherRow(cpu, other);
      }
    }

    twostate lemma OldImagesFit(cpu: int)
      requires old(Valid())
      ensures old(Fits(Map(), Images(cpu)))
    {
      forall i | 0 <= i < old(|entries|) ensures forall k: nat :: k in old(Images(cpu))[i] <==> old(Map())[i].geo.Hit(k) {
        var r := old(entries)[i].reg;
        ImageKeys(r.geo, old(r.endian), old(r.Row(r.Slot(cpu))));
      }
    }

    constructor ()
      ensures Valid() && entries == [] && alignedOnly == None && naturalOnly == None && accessSize == None
    {
      entries, alignedOnly, naturalOnly, accessSize := [], None, None, None;
    }

    ghost predicate SharesBytes(reg: Register, offset: nat)
      requires Valid() && reg.geo.Valid()
      reads this, Regs()
    {
      exists i :: 0 <= i < |entries| && ShareByte(reg.geo, offset, entries[i].reg.geo, entries[i].base)
    }

    method FindOverlap(reg: Register, offset: nat) returns (hit: bool)
      requires Valid() && reg.geo.Valid()
      ensures Valid() && (hit <==> SharesBytes(reg, offset))
    {
      hide ShareByte, WellPlaced;
      hit := false;
      var i := 0;
      while i < |entries| && !hit
        invariant 0 <= i <= |entries| && Valid()
        invariant hit ==> i < |entries| && ShareByte(reg.geo, offset, entries[i].reg.geo, entries[i].base)
        invariant forall j :: 0 <= j < i ==> !ShareByte(reg.geo, offset, entries[j].reg.geo, entries[j].base)
        decreases |entries| - i, !hit
      {
        hit := OverlapsRegister(reg.geo, offset, entries[i].reg.geo, entries[i].base);
        if !hit {
          i := i + 1;
        }
        NoRegisterChanged(0);
      }
    }

    /** What the bank imposes on the rules of a register, whose sizes it may not be able to set: natural accesses come
    before alignment, and sizes before both. All other rules stay. */
    predicate Imposes(before: Rules, after: Rules, geo: Geometry, sized: bool)
      reads this
    {
      && after == before.(aligned := after.aligned, minSize := after.minSize, maxSize := after.maxSize)
      && after.aligned == (if naturalOnly.Some? then naturalOnly.value
                           else if alignedOnly.Some? then alignedOnly.value else before.aligned)
      && (after.minSize, after.maxSize) == (if sized && accessSize.Some? then accessSize.value
                                            else if naturalOnly == Some(true) then (geo.cellSize, geo.cellSize)
                                            else if naturalOnly == Some(false) then (0, U64_MAX)
                                            else (before.minSize, before.maxSize))
    }

    /** The access rules that the bank imposes on its registers. */
    method ApplyDefaults(reg: Register) returns (ok: bool)
      modifies reg`rules
      ensures alignedOnly == Some(true) && naturalOnly.None? ==> reg.rules.aligned
      ensures naturalOnly.Some? && accessSize.None? ==> (reg.rules.NaturalOnly(reg.geo) <==> naturalOnly.value)
      ensures ok <==> accessSize.None? || accessSize.value.0 <= accessSize.value.1 <= reg.geo.cellSize
      ensures ok && accessSize.Some? ==> (reg.rules.minSize, reg.rules.maxSize) == accessSize.value
      ensures Imposes(old(reg.rules), reg.rules, reg.geo, ok)
    {
      if alignedOnly.Some? {
        reg.AlignedAccessesOnly(alignedOnly.value);
      }
      if naturalOnly.Some? {
        reg.NaturalAccessesOnly(naturalOnly.value);
      }
      ok := true;
      if accessSize.Some? {
        ok := reg.SetAccessSize(accessSize.value.0, accessSize.value.1);
      }
    }

    /** A bank with one more register that has no byte in common with the others is well formed. */
    twostate lemma EntryAdded(new k: nat, e: Entry)
      requires old(Valid()) && k <= |old(entries)| && entries == old(entries)[..k] + [e] + old(entries)[k..]
      requires e.reg.Valid() && e.reg !in old(Regs()) && forall r :: r in old(Regs()) ==> unchanged(r)
      requires forall i :: 0 <= i < k ==> old(entries)[i].base < e.base
      requires forall i :: k <= i < |old(entries)| ==> e.base <= old(entries)[i].base
      requires !old(SharesBytes(e.reg, e.base))
      ensures Valid() && forall i :: 0 <= i < |old(entries)| ==> old(entries)[i].base != e.base
    {
      hide WellPlaced, ShareByte;
      var es := old(Map());
      var m := Mapped(e.base, e.reg.geo, e.reg.rules);
      WellPlacedWith(es, k, m);
      forall i | 0 <= i < |old(entries)| ensures old(entries)[i].base != e.base {
        assert es[i].base != m.base;
      }
      forall i | 0 <= i < |old(entries)| ensures unchanged(old(entries)[i].reg) {
        var r := old(entries)[i].reg;
        assert old(entries[i] in entries);
        assert r in old(Regs());
      }
      assert Map() == es[..k] + [m] + es[k..];
    }

    /** Add a register. It is refused exactly when it has a byte in common with one in the map. */
    method Insert(reg: Register, offset: nat) returns (r: Outcome)
      requires Valid() && reg.Valid() && reg !in Regs()
      modifies this`entries, reg`rules
      ensures Valid()
      ensures r.OverlapError? <==> old(SharesBytes(reg, offset))
      ensures r.OverlapError? ==> entries == old(entries) && reg.rules == old(reg.rules)
      ensures !r.OverlapError? ==>
        && (exists k :: 0 <= k <= |old(entries)| && entries == old(entries)[..k] + [Entry(offset, reg)] + old(entries)[k..])
        && (forall i :: 0 <= i < |old(entries)| ==> old(entries)[i].base != offset)
        && (r.AccessSizeError? <==> accessSize.Some? && !(accessSize.value.0 <= accessSize.value.1 <= reg.geo.cellSize))
        && (alignedOnly == Some(true) && naturalOnly.None? ==> reg.rules.aligned)
        && (naturalOnly.Some? && accessSize.None? ==> (reg.rules.NaturalOnly(reg.geo) <==> naturalOnly.value))
        && (r.Inserted? && accessSize.Some? ==> (reg.rules.minSize, reg.rules.maxSize) == accessSize.value)
        && Imposes(old(reg.rules), reg.rules, reg.geo, r.Inserted?)
    {
      hide ShareByte, WellPlaced;
      var hit := FindOverlap(reg, offset);
      if hit {
        return OverlapError;
      }
      var k := LowerBound(offset);
      entries := entries[..k] + [Entry(offset, reg)] + entries[k..];
      var ok := ApplyDefaults(reg);
      r := if ok then Inserted else AccessSizeError;
      EntryAdded(k, Entry(offset, reg));
    }

    method Find(reg: Register) returns (k: nat)
      ensures k <= |entries| && (k < |entries| ==> entries[k].reg == reg)
      ensures k == |entries| ==> reg !in Regs()
    {
      k := 0;
      while k < |entries| && entries[k].reg != reg
        invariant 0 <= k <= |entries|
        invariant forall j :: 0 <= j < k ==> entries[j].reg != reg
      {
        k := k + 1;
      }
    }

    /** Take a register out of the map; the others stay as they are. */
    method Remove(reg: Register)
      requires Valid()
      modifies this`entries
      ensures Valid() && reg !in Regs()
      ensures reg !in old(Regs()) ==> entries == old(entries)
      ensures reg in old(Regs()) ==>
        (exists k :: 0 <= k < |old(entries)| && old(entries)[k].reg == reg
                     && entries == old(entries)[..k] + old(entries)[k + 1..])
    {
      hide WellPlaced;
      ghost var es := Map();
      var k := Find(reg);
      assert Map() == es;
      if k < |entries| {
        WellPlacedWithout(es, k);
        entries := entries[..k] + entries[k + 1..];
        assert Map() == es[..k] + es[k + 1..];
      }
    }

    /** The index of the first entry at or behind an offset. */
    method LowerBound(limit: nat) returns (k: nat)
      requires Valid()
      ensures k <= |entries|
      ensures forall i :: 0 <= i < k ==> entries[i].base < limit
      ensures forall i :: k <= i < |entries| ==> entries[i].base >= limit
    {
      k := 0;
      while k < |entries| && entries[k].base < limit
        invariant k <= |entries|
        invariant forall i :: 0 <= i < k ==> entries[i].base < limit
      {
        k := k + 1;
      }
      forall i | k <= i < |entries| ensures entries[i].base >= limit {
        assert Map()[k].base <= Map()[i].base;
      }
    }

    /** May the register take part in the transaction? Only if it has bytes there and all its rules are met, unless the
    access is for debugging. A register that has bytes there and refuses makes the access fail. */
    method CheckAccess(e: Entry, tx: Payload, info: Sideband) returns (ok: bool)
      requires e.reg.geo.Valid() && tx.length > 0 && (tx.streaming == 0 || tx.streaming == tx.length)
      modifies tx`response
      ensures var q := Query(tx.command, tx.address, tx.length, old(tx.response), info);
        var m := Mapped(e.base, e.reg.geo, e.reg.rules);
        && (ok <==> Touches(m, q) && Admits(m, q) && !Failed(q.response))
        && tx.response == if Touches(m, q) && !Admits(m, q) then CommandError else q.response
      ensures
        var rules := e.reg.rules;
        var touched := exists a: nat :: tx.address <= a < tx.address + tx.length && CellAt(e.reg.geo, e.base, a);
        var granted := info.isDebug ||
          (&& (tx.command.Read? ==> rules.readable)
           && (tx.command.Write? ==> rules.writeable)
           && rules.minSize <= tx.length <= rules.maxSize
           && (rules.aligned && rules.minSize > 0 ==> tx.address % rules.minSize == 0)
           && rules.privilege <= info.privilege
           && (rules.secure ==> info.isSecure));
        && (ok <==> touched && granted && !Failed(old(tx.response)))
        && tx.response == if touched && !granted then CommandError else old(tx.response)
    {
      var size := if tx.streaming > 0 then tx.streaming else tx.length;
      var hit := OverlapsRange(e.reg.geo, e.base, Range(tx.address, tx.address + size - 1));
      ghost var q := Query(tx.command, tx.address, tx.length, tx.response, info);
      ghost var m := Mapped(e.base, e.reg.geo, e.reg.rules);
      assert hit <==> Touches(m, q) by {
        assert forall a: int :: CellAt(e.reg.geo, e.base, a) <==> m.At(a);
        assert forall a: int :: tx.address <= a <= tx.address + size - 1 <==> q.Window(a);
      }
      if !hit {
        return false;
      }
      var rs := e.reg.rules.Check(tx.command, tx.address, tx.length, info);
      if Failed(rs) {
        tx.response := rs;
      }
      if Failed(tx.response) {
        return false;
      }
      return true;
    }

    /** If only register `i` changed, and of it only cell values, the bank is as before but for its image. */
    twostate lemma OneRegisterChanged(new i: nat, new cpu: int)
      requires old(Valid()) && entries == old(entries) && i < |entries|
      requires entries[i].reg.Valid() && entries[i].reg.SameConfiguration()
      requires forall j :: 0 <= j < |entries| && j != i ==> unchanged(entries[j].reg)
      ensures Valid() && Map() == old(Map())
      ensures Images(cpu) == old(Images(cpu))[i := entries[i].reg.Image(entries[i].reg.Slot(cpu))]
      ensures Fits(Map(), Images(cpu)) && Contents(cpu) == View(Map(), Images(cpu))
      ensures entries[i].reg.Rest(cpu) == old(entries[i].reg.Rest(cpu)) ==> Rests(cpu) == old(Rests(cpu))
    {
      hide RowImage, WellPlaced, Fits, View;
      assert Map() == old(Map());
      forall j | 0 <= j < |entries| && j != i ensures entries[j].reg.Valid() {
        assert unchanged(entries[j].reg);
      }
      ImagesFit(cpu);
    }

    twostate lemma NoRegisterChanged(cpu: int)
      requires old(Valid()) && entries == old(entries)
      requires forall j :: 0 <= j < |entries| ==> unchanged(entries[j].reg)
      ensures Valid() && Map() == old(Map()) && Contents(cpu) == old(Contents(cpu)) && Rests(cpu) == old(Rests(cpu))
    {
      hide RowImage, WellPlaced, Fits, View;
      assert Map() == old(Map());
      forall j | 0 <= j < |entries| ensures entries[j].reg.Valid() {
        assert unchanged(entries[j].reg);
      }
      ImagesFit(cpu);
      assert Images(cpu) == old(Images(cpu));
    }

    /** A bank none of whose registers changed. */
    twostate lemma NothingChanged(cpu: int)
      requires old(Valid()) && unchanged(this)
      requires forall r :: r in Regs() ==> unchanged(r)
      ensures Valid() && Map() == old(Map()) && Contents(cpu) == old(Contents(cpu)) && Rests(cpu) == old(Rests(cpu))
    {
      forall j | 0 <= j < |entries| ensures unchanged(entries[j].reg) {
        assert entries[j] in entries;
        assert entries[j].reg in Regs();
      }
      NoRegisterChanged(cpu);
    }

    /** Hand the part of the transaction that lies in register `i` to it and restore the transaction. */
    method ServeEntry(i: nat, tx: Payload, info: Sideband) returns (n: nat)
      requires Valid() && tx.HasData() && i < |entries|
      requires Touches(Map()[i], Query(tx.command, tx.address, tx.length, tx.response, info))
      modifies entries[i].reg, tx`address, tx`length, tx`streaming, tx`dataPtr, tx`response, tx.buffer
      ensures Valid() && Map() == old(Map())
      ensures tx.address == old(tx.address) && tx.length == old(tx.length)
      ensures tx.streaming == old(tx.streaming) && tx.dataPtr == old(tx.dataPtr)
      ensures Rests(info.cpu) == old(Rests(info.cpu))
      ensures var q := Query(tx.command, tx.address, tx.length, old(tx.response), info);
        var delta := tx.dataPtr - tx.address;
        var share := Share(Map()[i], q);
        && n == |share|
        && tx.response == (if old(tx.response).Incomplete? then Ok else old(tx.response))
        && Effect(q.command, old(Contents(info.cpu)), old(tx.buffer[..]), delta, share, Contents(info.cpu), tx.buffer[..])
    {
      hide RowImage, Stored, Loaded, StoredAt, LoadedAt, View, Share, Touches, Fits, HitsIn, WellPlaced,
        Effect, Rests, Register.Rest;
      var base, reg := entries[i].base, entries[i].reg;
      var limit := tx.address + tx.length;
      var start := if tx.address < base then base else tx.address;
      var end := if limit < base + reg.geo.Size() then limit else base + reg.geo.Size();
      ghost var q := Query(tx.command, tx.address, tx.length, tx.response, info);
      ghost var es, images, buf, delta := Map(), Images(info.cpu), tx.buffer[..], tx.dataPtr - tx.address;
      Clipped(es[i], q, start, end);
      ImagesFit(info.cpu);
      n := Forward(reg, base, start, end, tx, info);
      OneRegisterChanged(i, info.cpu);
      assert Images(info.cpu) == if tx.command.Write?
        then images[i := Stored(images[i], buf, base + delta, start - base, end - base)] else images;
      ShareMoved(es, images, i, q, buf, delta, start - base, end - base, Images(info.cpu), tx.buffer[..]);
    }

    /** How far an access of processor `cpu` has come. */
    ghost function ProgressOf(tx: Payload, cpu: int, count: nat): Progress
      requires Valid()
      reads this, Regs(), tx, tx.buffer
    {
      Progress(count, tx.response, Contents(cpu), tx.buffer[..])
    }

    /** One turn of the scan: check the register and let it serve its share. */
    method Visit(i: nat, tx: Payload, info: Sideband, count: nat) returns (newCount: nat, served: bool)
      requires Valid() && tx.HasData() && i < |entries|
      requires tx.length > 0 && (tx.streaming == 0 || tx.streaming == tx.length)
      modifies entries[i].reg, tx`address, tx`length, tx`streaming, tx`dataPtr, tx`response, tx.buffer
      ensures Valid() && Map() == old(Map())
      ensures tx.address == old(tx.address) && tx.length == old(tx.length)
      ensures tx.streaming == old(tx.streaming) && tx.dataPtr == old(tx.dataPtr)
      ensures Rests(info.cpu) == old(Rests(info.cpu))
      ensures Visited(Map()[i], Query(tx.command, tx.address, tx.length, old(tx.response), info),
                      tx.dataPtr - tx.address, served, old(ProgressOf(tx, info.cpu, count)),
                      ProgressOf(tx, info.cpu, newCount))
    {
      hide Effect, Share, Touches, View, RowImage;
      ghost var q := Query(tx.command, tx.address, tx.length, tx.response, info);
      EffectOfNothing(q.command, Contents(info.cpu), tx.buffer[..], tx.dataPtr - tx.address);
      newCount := count;
      served := CheckAccess(entries[i], tx, info);
      NoRegisterChanged(info.cpu);
      if served {
        var n := ServeEntry(i, tx, info);
        newCount := count + n;
      }
    }

    /** Serve a transaction: scan the registers backwards from the end of the window. */
    method Receive(tx: Payload, info: Sideband) returns (numBytes: nat)
      requires Valid() && tx.HasData() && tx.length > 0 && (tx.streaming == 0 || tx.streaming == tx.length)
      modifies Regs(), tx`address, tx`length, tx`streaming, tx`dataPtr, tx`response, tx.buffer
      ensures Valid() && Map() == old(Map())
      ensures tx.address == old(tx.address) && tx.length == old(tx.length)
      ensures tx.streaming == old(tx.streaming) && tx.dataPtr == old(tx.dataPtr)
      ensures Rests(info.cpu) == old(Rests(info.cpu))
      ensures var q := Query(tx.command, tx.address, tx.length, old(tx.response), info);
        var served := ServedFrom(Map(), 0, q);
        && numBytes == |served|
        && tx.response == StatusFrom(Map(), 0, q)
        && Effect(q.command, old(Contents(info.cpu)), old(tx.buffer[..]), tx.dataPtr - tx.address, served,
                  Contents(info.cpu), tx.buffer[..])
      ensures old(tx.response).Incomplete? ==>
        var q := Query(tx.command, tx.address, tx.length, Incomplete, info);
        && tx.response == StatusOf(Map(), q) && numBytes == |Moved(Map(), q)|
        && BytesMoved(Map(), q, old(Contents(info.cpu)), old(tx.buffer[..]), tx.dataPtr - tx.address,
                      Contents(info.cpu), tx.buffer[..])
        && RestStays(Map(), q, old(Contents(info.cpu)), old(tx.buffer[..]), tx.dataPtr - tx.address,
                     Contents(info.cpu), tx.buffer[..])
    {
      hide Effect, Visited, Scanned, View, RowImage, ServedFrom, StatusFrom, WellPlaced, Contents, Images, Rests;
      ghost var q := Query(tx.command, tx.address, tx.length, tx.response, info);
      ghost var es, m, buf, delta := Map(), Contents(info.cpu), tx.buffer[..], tx.dataPtr - tx.address;
      ContentsCovered(info.cpu);
      AccessMeans(es, q, m, buf, delta);
      numBytes := 0;
      if |entries| == 0 {
        NothingScanned(es, 0, q, m, buf, delta);
        ScanIsDone(es, q, m, buf, delta, ProgressOf(tx, info.cpu, 0));
        return;
      }
      var size := tx.length;
      var limit := tx.address + size;
      var i: nat := LowerBound(limit);
      NothingScanned(es, i, q, m, buf, delta);
      while i > 0
        invariant i <= |entries|
        invariant Valid() && Map() == es
        invariant tx.address == old(tx.address) && tx.length == old(tx.length)
        invariant tx.streaming == old(tx.streaming) && tx.dataPtr == old(tx.dataPtr)
        invariant Scanned(es, i, q, m, buf, delta, ProgressOf(tx, info.cpu, numBytes))
        invariant Rests(info.cpu) == old(Rests(info.cpu))
      {
        ghost var q1, before := q.(response := tx.response), ProgressOf(tx, info.cpu, numBytes);
        i := i - 1;
        var served;
        numBytes, served := Visit(i, tx, info, numBytes);
        SameVisit(es[i], q, q1, delta, served, before, ProgressOf(tx, info.cpu, numBytes));
        ScanTurn(es, i, q, m, buf, delta, served, before, ProgressOf(tx, info.cpu, numBytes));
        if served && Success(tx.response) && entries[i].reg.rules.NaturalOnly(entries[i].reg.geo) {
          return;
        }
        if numBytes >= size {
          return;
        }
      }
      ScanIsDone(es, q, m, buf, delta, ProgressOf(tx, info.cpu, numBytes));
    }
  }

  /** Set the transaction to a part of it that lies in one register, let the register serve it, set it back. */
  method Forward(reg: Register, base: nat, start: nat, end: nat, tx: Payload, info: Sideband) returns (n: nat)
    requires reg.Valid() && tx.HasData()
    requires base <= start < end && tx.address <= start && end <= tx.address + tx.length
    modifies reg, tx`address, tx`length, tx`streaming, tx`dataPtr, tx`response, tx.buffer
    ensures reg.Valid() && reg.SameConfiguration()
    ensures tx.address == old(tx.address) && tx.length == old(tx.length)
    ensures tx.streaming == old(tx.streaming) && tx.dataPtr == old(tx.dataPtr)
    ensures n == |HitsIn(reg.geo, start - base, end - base)|
    ensures tx.response == if n > 0 && old(tx.response).Incomplete? then Ok else old(tx.response)
    ensures tx.buffer[..] == if tx.command.Read?
      then Loaded(old(tx.buffer[..]), old(reg.Image(reg.Slot(info.cpu))), base + (tx.dataPtr - tx.address),
                  start - base, end - base)
      else old(tx.buffer[..])
    ensures reg.Image(reg.Slot(info.cpu)) == if tx.command.Write?
      then Stored(old(reg.Image(reg.Slot(info.cpu))), old(tx.buffer[..]), base + (tx.dataPtr - tx.address),
                  start - base, end - base)
      else old(reg.Image(reg.Slot(info.cpu)))
    ensures reg.Rest(info.cpu) == old(reg.Rest(info.cpu))
  {
    hide RowImage, Stored, Loaded, HitsIn;
    var addr, size, strw, data := tx.address, tx.length, tx.streaming, tx.dataPtr;
    tx.address := start - base;
    tx.length := end - start;
    tx.streaming := end - start;
    tx.dataPtr := data + start - addr;
    n := reg.Receive(tx, info);
    tx.address := addr;
    tx.length := size;
    tx.streaming := strw;
    tx.dataPtr := data;
  }
}
