/** One memory mapped register: an array of cells behind a clipped, split and swapped bus access. */
module Registers {
  import opened ByteOrder
  import opened Layout
  import opened Wrappers

  datatype Command = Read | Write | Ignore

  datatype Response = Ok | Incomplete | AddressError | CommandError | BurstError | ByteEnableError

  predicate Success(r: Response) {
    r.Ok?
  }

  predicate Failed(r: Response) {
    !r.Ok? && !r.Incomplete?
  }

  /** Sideband information of a transaction. */
  datatype Sideband = Sideband(isDebug: bool, isSecure: bool, privilege: nat, cpu: int)

  const U64_MAX: nat := 0xFFFF_FFFF_FFFF_FFFF

  /** The access rules of a register. */
  datatype Rules = Rules(readable: bool, writeable: bool, aligned: bool, secure: bool,
                         privilege: nat, minSize: nat, maxSize: nat) {
    /** The status a transaction at address `addr` with `len` bytes gets from the rules. */
    function Check(cmd: Command, addr: nat, len: nat, info: Sideband): Response {
      if info.isDebug then Ok
      else if cmd.Read? && !readable then CommandError
      else if cmd.Write? && !writeable then CommandError
      else if len < minSize || len > maxSize then CommandError
      else if aligned && minSize > 0 && addr % minSize != 0 then CommandError
      else if privilege > info.privilege then CommandError
      else if secure && !info.isSecure then CommandError
      else Ok
    }

    predicate NaturalOnly(g: Geometry) {
      aligned && minSize == g.cellSize && maxSize == g.cellSize
    }
  }

  /** A bus transaction. The data pointer is an index into the buffer of the initiator. */
  class Payload {
    var command: Command
    var address: nat
    const buffer: array<u8>
    var dataPtr: nat
    var length: nat
    var streaming: nat
    var byteEnable: Option<seq<u8>>
    var byteEnableLength: nat
    var response: Response

    constructor (command: Command, address: nat, buffer: array<u8>, length: nat, streaming: nat,
                 byteEnable: Option<seq<u8>>, byteEnableLength: nat)
      requires length <= buffer.Length
      ensures this.command == command && this.address == address && this.buffer == buffer
      ensures dataPtr == 0 && this.length == length && this.streaming == streaming
      ensures this.byteEnable == byteEnable && this.byteEnableLength == byteEnableLength
      ensures response == Incomplete
    {
      this.command, this.address, this.buffer := command, address, buffer;
      this.dataPtr, this.length, this.streaming := 0, length, streaming;
      this.byteEnable, this.byteEnableLength := byteEnable, byteEnableLength;
      this.response := Incomplete;
    }

    /** The data pointer points to at least `length` bytes. */
    predicate HasData()
      reads this
    {
      dataPtr + length <= buffer.Length
    }
  }

  /** The window `from..to` of addresses sits in the buffer at the indices `from + delta..to + delta`. */
  predicate InBuffer(n: nat, delta: int, from: nat, to: nat) {
    from <= to ==> 0 <= from + delta && to + delta <= n
  }

  /** `m` after the bytes of a window were stored, as far as `m` has these addresses. */
  function Stored(m: Memory, buf: seq<u8>, delta: int, from: nat, to: nat): (r: Memory)
    requires InBuffer(|buf|, delta, from, to)
  {
    map a | a in m :: if from <= a < to then buf[a + delta] else m[a]
  }

  /** The buffer after the bytes of a window were loaded, as far as `m` has these addresses. */
  function Loaded(buf: seq<u8>, m: Memory, delta: int, from: nat, to: nat): (r: seq<u8>)
    requires InBuffer(|buf|, delta, from, to)
    ensures |r| == |buf|
  {
    seq(|buf|, i requires 0 <= i < |buf| => if from <= i - delta < to && i - delta in m then m[i - delta] else buf[i])
  }

  /** The covered offsets of a layout in a window. */
  ghost function HitsIn(g: Geometry, lo: nat, hi: nat): set<nat>
    requires g.Valid()
  {
    set k: nat | lo <= k < hi && g.Hit(k)
  }

  ghost function Interval(lo: nat, hi: nat): (s: set<nat>)
    requires lo <= hi
    ensures forall k: nat :: k in s <==> lo <= k < hi
    ensures |s| == hi - lo
  {
    if lo == hi then {} else Interval(lo, hi - 1) + {hi - 1}
  }

  /** One turn of the cell loop: `len` covered bytes from `addr`, then nothing up to `next`. */
  lemma CellStep(g: Geometry, lo: nat, addr: nat, idx: nat, offset: nat, len: nat, next: nat)
    requires g.Valid() && addr == g.Place(idx, offset) && offset < g.cellStride
    requires lo <= addr && addr + len <= next <= addr - offset + g.cellStride && next <= g.Size()
    requires if offset < g.cellSize then len <= g.cellSize - offset && (len == g.cellSize - offset || addr + len == next)
             else len == 0
    ensures forall k :: addr <= k < next ==> (g.Hit(k) <==> k < addr + len)
    ensures |HitsIn(g, lo, next)| == |HitsIn(g, lo, addr)| + len
  {
    forall k | addr <= k < next ensures g.Hit(k) <==> k < addr + len {
      DivModUnique(k, g.cellStride, idx, offset + (k - addr));
    }
    assert HitsIn(g, lo, next) == HitsIn(g, lo, addr) + Interval(addr, addr + len);
  }

  /** Storing two adjacent windows is storing their union, addresses that are not there aside. */
  lemma StoredMore(m: Memory, buf: seq<u8>, delta: int, lo: nat, x: nat, y: nat, z: nat)
    requires lo <= x <= y <= z && InBuffer(|buf|, delta, lo, z)
    requires forall a :: y <= a < z ==> a !in m
    ensures Stored(Stored(m, buf, delta, lo, x), buf, delta, x, y) == Stored(m, buf, delta, lo, z)
    ensures x == y ==> Stored(m, buf, delta, lo, x) == Stored(m, buf, delta, lo, z)
  {
  }

  lemma LoadedMore(m: Memory, buf: seq<u8>, delta: int, lo: nat, x: nat, y: nat, z: nat)
    requires lo <= x <= y <= z && InBuffer(|buf|, delta, lo, z)
    requires forall a :: y <= a < z ==> a !in m
    ensures Loaded(Loaded(buf, m, delta, lo, x), m, delta, x, y) == Loaded(buf, m, delta, lo, z)
    ensures x == y ==> Loaded(buf, m, delta, lo, x) == Loaded(buf, m, delta, lo, z)
  {
  }

  /** Behind the end of a register there is nothing to serve. */
  lemma Outside(g: Geometry, m: Memory, buf: seq<u8>, delta: int, lo: nat, mid: nat, hi: nat)
    requires g.Valid() && lo <= mid <= hi && (mid == hi || g.Size() <= mid) && InBuffer(|buf|, delta, lo, hi)
    requires forall k: nat :: k in m <==> g.Hit(k)
    ensures HitsIn(g, lo, hi) == HitsIn(g, lo, mid)
    ensures Stored(m, buf, delta, lo, hi) == Stored(m, buf, delta, lo, mid)
    ensures Loaded(buf, m, delta, lo, hi) == Loaded(buf, m, delta, lo, mid)
    ensures lo == mid ==> Stored(m, buf, delta, lo, hi) == m && Loaded(buf, m, delta, lo, hi) == buf
    ensures lo == mid ==> |HitsIn(g, lo, hi)| == 0
  {
    if lo == mid {
      assert HitsIn(g, lo, hi) == {};
    }
  }

  /** memcpy of a part of `src` into a buffer. */
  method CopyBytes(src: seq<u8>, off: nat, len: nat, data: array<u8>, pos: nat)
    requires off + len <= |src| && pos + len <= data.Length
    modifies data
    ensures forall i :: 0 <= i < data.Length ==>
      data[i] == if pos <= i < pos + len then src[off + (i - pos)] else old(data[i])
  {
    forall j | 0 <= j < len {
      data[pos + j] := src[off + j];
    }
  }

  /** One row of cell values as the bus sees it: each cell in device byte order. */
  ghost function RowImage(g: Geometry, e: Endian, row: seq<nat>): (m: Memory)
    requires g.Valid() && |row| == g.cellCount
  {
    map k: nat | k < g.Size() && g.Hit(k) :: ImageByte(g, e, row, k)
  }

  ghost function ImageByte(g: Geometry, e: Endian, row: seq<nat>, k: nat): u8
    requires g.Valid() && |row| == g.cellCount && g.Hit(k)
  {
    CellIndexInBounds(g, k);
    CellByte(e, row, g.cellSize, g.Index(k), g.Offset(k))
  }

  ghost function CellByte(e: Endian, row: seq<nat>, n: nat, i: int, r: int): u8
    requires 0 <= i < |row| && 0 <= r < n
  {
    Bytes(e, row[i], n)[r]
  }

  lemma ImageKeys(g: Geometry, e: Endian, row: seq<nat>)
    requires g.Valid() && |row| == g.cellCount
    ensures forall k: nat :: k in RowImage(g, e, row) <==> g.Hit(k)
  {
  }

  /** Byte `off + j` of a cell is byte `lo + j` of the image. */
  lemma CellRead(g: Geometry, e: Endian, row: seq<nat>, idx: nat, off: nat, len: nat, lo: nat, k: nat)
    requires g.Valid() && |row| == g.cellCount && idx < g.cellCount && off + len <= g.cellSize
    requires lo == g.Place(idx, off) && lo <= k < lo + len
    ensures k in RowImage(g, e, row) && RowImage(g, e, row)[k] == Bytes(e, row[idx], g.cellSize)[off + (k - lo)]
  {
    CellWindow(g, idx, off, len, lo, k);
  }

  /** Copying bytes of one cell is loading them from the image of its row. */
  lemma CellLoaded(g: Geometry, e: Endian, row: seq<nat>, idx: nat, off: nat, len: nat, lo: nat,
                   buf: seq<u8>, pos: nat, buf': seq<u8>)
    requires g.Valid() && |row| == g.cellCount && idx < g.cellCount && off + len <= g.cellSize
    requires lo == g.Place(idx, off) && pos + len <= |buf| == |buf'|
    requires forall i :: 0 <= i < |buf| ==>
      buf'[i] == if pos <= i < pos + len then Bytes(e, row[idx], g.cellSize)[off + (i - pos)] else buf[i]
    ensures buf' == Loaded(buf, RowImage(g, e, row), pos - lo, lo, lo + len)
  {
    hide Bytes, RowImage;
    forall k: nat | lo <= k < lo + len
      ensures k in RowImage(g, e, row) && RowImage(g, e, row)[k] == Bytes(e, row[idx], g.cellSize)[off + (k - lo)]
    {
      CellRead(g, e, row, idx, off, len, lo, k);
    }
  }

  /** Changing bytes of one cell is storing them in the image of its row. */
  lemma CellWritten(g: Geometry, e: Endian, row: seq<nat>, idx: nat, v: nat, off: nat, len: nat, lo: nat,
                    buf: seq<u8>, pos: nat)
    requires g.Valid() && |row| == g.cellCount && idx < g.cellCount && off + len <= g.cellSize
    requires lo == g.Place(idx, off) && pos + len <= |buf|
    requires Bytes(e, v, g.cellSize) == Spliced(Bytes(e, row[idx], g.cellSize), off, buf[pos..pos + len])
    ensures RowImage(g, e, row[idx := v]) == Stored(RowImage(g, e, row), buf, pos - lo, lo, lo + len)
  {
    hide Bytes, CellByte, ImageByte;
    var bs := buf[pos..pos + len];
    forall k: nat | g.Hit(k)
      ensures ImageByte(g, e, row[idx := v], k) ==
        if lo <= k < lo + len then buf[k + (pos - lo)] else ImageByte(g, e, row, k)
    {
      CellWrittenAt(g, e, row, idx, v, off, lo, bs, k);
    }
  }

  lemma CellWrittenAt(g: Geometry, e: Endian, row: seq<nat>, idx: nat, v: nat, off: nat, lo: nat, bs: seq<u8>, k: nat)
    requires g.Valid() && |row| == g.cellCount && idx < g.cellCount && off + |bs| <= g.cellSize
    requires lo == g.Place(idx, off) && g.Hit(k)
    requires Bytes(e, v, g.cellSize) == Spliced(Bytes(e, row[idx], g.cellSize), off, bs)
    ensures ImageByte(g, e, row[idx := v], k) ==
      if lo <= k < lo + |bs| then bs[k - lo] else ImageByte(g, e, row, k)
  {
    hide Bytes, CellByte, Geometry.Index, Geometry.Offset, Geometry.Hit, Geometry.Place;
    CellWindow(g, idx, off, |bs|, lo, k);
    CellIndexInBounds(g, k);
    ByteWritten(e, row, g.cellSize, idx, v, off, bs, g.Index(k), g.Offset(k));
  }

  lemma ByteWritten(e: Endian, row: seq<nat>, n: nat, idx: nat, v: nat, off: nat, bs: seq<u8>, i: int, r: int)
    requires idx < |row| && off + |bs| <= n && 0 <= i < |row| && 0 <= r < n
    requires Bytes(e, v, n) == Spliced(Bytes(e, row[idx], n), off, bs)
    ensures CellByte(e, row[idx := v], n, i, r) ==
      if i == idx && off <= r < off + |bs| then bs[r - off] else CellByte(e, row, n, i, r)
  {
    hide Bytes, Spliced;
    assert row[idx := v][i] == if i == idx then v else row[i];
  }

  /** What a register holds besides the bytes one processor sees: its configuration and the other banks. */
  datatype Remainder = Remainder(endian: Endian, rules: Rules, writeback: bool, banked: bool, others: imap<int, seq<nat>>)

  class Register {
    const geo: Geometry
    const hostEndian: Endian
    const init: seq<nat>
    var endian: Endian
    var rules: Rules
    var writeback: bool
    var banked: bool
    var cells: seq<nat>
    var banks: map<int, seq<nat>>

    ghost predicate ValidRow(s: seq<nat>) {
      |s| == geo.cellCount && forall i :: 0 <= i < |s| ==> s[i] < WordRange(geo.cellSize)
    }

    ghost predicate Valid()
      reads this
    {
      && geo.Valid()
      && ValidRow(init)
      && ValidRow(cells)
      && (forall b :: b in banks ==> ValidRow(banks[b]))
    }

    constructor (geo: Geometry, hostEndian: Endian, endian: Endian, init: seq<nat>)
      requires geo.Valid()
      requires |init| == geo.cellCount && forall i :: 0 <= i < |init| ==> init[i] < WordRange(geo.cellSize)
      ensures Valid() && this.geo == geo && this.hostEndian == hostEndian && this.endian == endian
      ensures this.init == init && cells == init && banks == map[] && !banked && writeback
      ensures rules == Rules(true, true, false, false, 0, 0, U64_MAX)
    {
      this.geo, this.hostEndian, this.endian := geo, hostEndian, endian;
      this.init, this.cells, this.banks := init, init, map[];
      this.rules := Rules(true, true, false, false, 0, 0, U64_MAX);
      this.writeback, this.banked := true, false;
    }

    /** The bank that processor `cpu` sees: unbanked registers have only bank 0. */
    function Slot(cpu: int): int
      reads this
    {
      if banked then cpu else 0
    }

    /** The cell values of a bank; banks that were never touched hold the initial values. */
    function Row(slot: int): seq<nat>
      reads this
    {
      if slot == 0 then cells
      else if slot in banks then banks[slot]
      else init
    }

    /** The bytes of a bank of the register. Processor `cpu` sees `Image(Slot(cpu))`. */
    ghost function Image(slot: int): (m: Memory)
      requires Valid()
      reads this
    {
      RowImage(geo, endian, Row(slot))
    }

    ghost function Rest(cpu: int): Remainder
      reads this
    {
      Remainder(endian, rules, writeback, banked, imap b: int | b != Slot(cpu) :: Row(b))
    }

    twostate lemma OtherRow(new cpu: int, new slot: int)
      requires Rest(cpu) == old(Rest(cpu)) && slot != Slot(cpu)
      ensures Row(slot) == old(Row(slot)) && endian == old(endian) && banked == old(banked)
    {
      assert slot in Rest(cpu).others && slot in old(Rest(cpu)).others;
    }

    /** Nothing but cell values can differ. */
    twostate predicate SameConfiguration()
      reads this
    {
      endian == old(endian) && rules == old(rules) && writeback == old(writeback) && banked == old(banked)
    }

    method AlignedAccessesOnly(only: bool)
      modifies this`rules
      ensures rules == old(rules).(aligned := only)
    {
      rules := rules.(aligned := only);
    }

    method NaturalAccessesOnly(only: bool)
      modifies this`rules
      ensures rules.aligned == only && (rules.NaturalOnly(geo) <==> only)
      ensures !only ==> rules.minSize == 0 && rules.maxSize == U64_MAX
      ensures rules == old(rules).(aligned := rules.aligned, minSize := rules.minSize, maxSize := rules.maxSize)
    {
      rules := rules.(aligned := only, minSize := if only then geo.cellSize else 0,
                      maxSize := if only then geo.cellSize else U64_MAX);
    }

    /** Fails, changing nothing, on an empty size interval or one beyond the cell size. */
    method SetAccessSize(min: nat, max: nat) returns (ok: bool)
      modifies this`rules
      ensures ok <==> min <= max <= geo.cellSize
      ensures rules == if ok then old(rules).(minSize := min, maxSize := max) else old(rules)
    {
      if min > max || max > geo.cellSize {
        return false;
      }
      rules := rules.(minSize := min, maxSize := max);
      return true;
    }

    method InitBank(bank: int)
      requires Valid() && banked
      modifies this
      ensures Valid() && SameConfiguration()
      ensures bank == 0 || bank in banks
      ensures forall b :: Row(b) == old(Row(b))
    {
      if bank == 0 || bank in banks {
        return;
      }
      banks := banks[bank := init];
    }

    method Load(cpu: int, idx: nat) returns (v: nat)
      requires Valid() && idx < geo.cellCount
      modifies this
      ensures Valid() && SameConfiguration()
      ensures forall b :: Row(b) == old(Row(b))
      ensures v == Row(Slot(cpu))[idx] && v < WordRange(geo.cellSize)
    {
      var bank := Slot(cpu);
      if bank == 0 || !banked {
        return cells[idx];
      }
      InitBank(bank);
      v := banks[bank][idx];
    }

    method Store(cpu: int, idx: nat, v: nat)
      requires Valid() && idx < geo.cellCount && v < WordRange(geo.cellSize)
      modifies this
      ensures Valid() && SameConfiguration()
      ensures forall b :: Row(b) == if b == Slot(cpu) then old(Row(b))[idx := v] else old(Row(b))
    {
      var bank := Slot(cpu);
      if bank == 0 || !banked {
        cells := cells[idx := v];
      } else {
        InitBank(bank);
        var row: seq<nat> := banks[bank];
        row := row[idx := v];
        banks := banks[bank := row];
      }
    }

    /** All banks go back to the initial values. */
    method Reset()
      requires Valid()
      modifies this
      ensures Valid() && SameConfiguration()
      ensures forall b :: Row(b) == init
    {
      cells := init;
      banks := map b | b in banks :: init;
    }

    /** The read side of one cell; without callbacks the write back stores what is there already. */
    method DoRead(cpu: int, idx: nat, off: nat, len: nat, data: array<u8>, pos: nat, dbg: bool)
      requires Valid() && idx < geo.cellCount && off + len <= geo.cellSize
      requires pos + len <= data.Length
      modifies this, data
      ensures Valid() && SameConfiguration()
      ensures forall b :: Row(b) == old(Row(b))
      ensures var lo := geo.Place(idx, off);
        data[..] == Loaded(old(data[..]), old(Image(Slot(cpu))), pos - lo, lo, lo + len)
    {
      hide Bytes, BusImage, RowImage, Loaded, WordRange, Geometry.Place;
      ghost var row, buf := Row(Slot(cpu)), data[..];
      var val := Load(cpu, idx);
      if !dbg && writeback {
        assert Row(Slot(cpu))[idx := val] == Row(Slot(cpu));
        Store(cpu, idx, val);
      }
      assert Row(Slot(cpu)) == row;
      var raw := BusImage(hostEndian, endian, val, geo.cellSize);
      BusImageIsDeviceImage(hostEndian, endian, val, geo.cellSize);
      CopyBytes(raw, off, len, data, pos);
      CellLoaded(geo, endian, row, idx, off, len, geo.Place(idx, off), buf, pos, data[..]);
    }

    /** The write side of one cell: read, merge the new bytes, write back. */
    method DoWrite(cpu: int, idx: nat, off: nat, len: nat, data: array<u8>, pos: nat)
      requires Valid() && idx < geo.cellCount && off + len <= geo.cellSize
      requires pos + len <= data.Length
      modifies this
      ensures Valid() && SameConfiguration()
      ensures var lo := geo.Place(idx, off);
        Image(Slot(cpu)) == Stored(old(Image(Slot(cpu))), old(data[..]), pos - lo, lo, lo + len)
      ensures forall b :: b != Slot(cpu) ==> Row(b) == old(Row(b))
    {
      hide RowImage, Stored, Bytes, Merged, Spliced, WordRange, Geometry.Place;
      ghost var image, buf, lo := Image(Slot(cpu)), data[..], geo.Place(idx, off);
      var val := Load(cpu, idx);
      var bytes := data[pos..pos + len];
      var merged := Merged(hostEndian, endian, val, geo.cellSize, off, bytes);
      MergedImage(hostEndian, endian, val, geo.cellSize, off, bytes);
      assert bytes == buf[pos..pos + len];
      CellWritten(geo, endian, Row(Slot(cpu)), idx, merged, off, len, lo, buf, pos);
      Store(cpu, idx, merged);
      assert Image(Slot(cpu)) == Stored(image, buf, pos - lo, lo, lo + len);
    }

    /** The cell index and the offset in the cell's stride, and where the next cell starts. */
    method Locate(addr: nat) returns (idx: nat, offset: nat, next: nat)
      requires geo.Valid() && addr < geo.Size()
      ensures addr == geo.Place(idx, offset) && offset < geo.cellStride && idx < geo.cellCount
      ensures next == addr - offset + geo.cellStride
    {
      idx := geo.Index(addr);
      offset := geo.Offset(addr);
      next := (idx + 1) * geo.cellStride;
      CellIndexInBounds(geo, addr);
    }

    /** Split an access that lies inside the register into accesses to its cells. */
    method DoReceive(tx: Payload, info: Sideband) returns (nbytes: nat)
      requires Valid() && tx.HasData()
      requires tx.address + tx.length <= geo.Size()
      modifies this, tx`response, tx.buffer
      ensures Valid() && SameConfiguration()
      ensures nbytes == |HitsIn(geo, tx.address, tx.address + tx.length)|
      ensures tx.response == if nbytes > 0 && old(tx.response).Incomplete? then Ok else old(tx.response)
      ensures tx.buffer[..] == if tx.command.Read?
        then Loaded(old(tx.buffer[..]), old(Image(Slot(info.cpu))), tx.dataPtr - tx.address,
                    tx.address, tx.address + tx.length)
        else old(tx.buffer[..])
      ensures Image(Slot(info.cpu)) == if tx.command.Write?
        then Stored(old(Image(Slot(info.cpu))), old(tx.buffer[..]), tx.dataPtr - tx.address,
                    tx.address, tx.address + tx.length)
        else old(Image(Slot(info.cpu)))
      ensures forall b :: b != Slot(info.cpu) ==> Row(b) == old(Row(b))
    {
      hide RowImage, Stored, Loaded;
      ImageKeys(geo, endian, Row(Slot(info.cpu)));
      nbytes := 0;
      var addr := tx.address;
      var end := addr + tx.length;
      var cmd, data := tx.command, tx.buffer;
      ghost var lo, at, delta, slot := addr, addr, tx.dataPtr - addr, Slot(info.cpu);
      ghost var image, buffer := Image(slot), data[..];
      Outside(geo, image, buffer, delta, lo, lo, lo);
      while addr < end
        invariant lo <= at && at == if addr < end then addr else end
        invariant Valid() && SameConfiguration()
        invariant nbytes == |HitsIn(geo, lo, at)|
        invariant data[..] == if cmd.Read? then Loaded(buffer, image, delta, lo, at) else buffer
        invariant Image(slot) == if cmd.Write? then Stored(image, buffer, delta, lo, at) else image
        invariant forall b :: b != slot ==> Row(b) == old(Row(b))
        invariant tx.response == old(tx.response)
        decreases end - addr
      {
        var idx, offset, next := Locate(addr);
        ghost var len0 := 0;
        if offset < geo.cellSize {
          var pos := tx.dataPtr + addr - tx.address;
          var len := if geo.cellSize - offset < end - addr then geo.cellSize - offset else end - addr;
          len0 := len;
          if cmd.Read? {
            DoRead(info.cpu, idx, offset, len, data, pos, info.isDebug);
          }
          if cmd.Write? {
            DoWrite(info.cpu, idx, offset, len, data, pos);
          }
          nbytes := nbytes + len;
        }
        addr := next;
        ghost var stop := if addr < end then addr else end;
        CellStep(geo, lo, at, idx, offset, len0, stop);
        LoadedMore(image, buffer, delta, lo, at, at + len0, stop);
        StoredMore(image, buffer, delta, lo, at, at + len0, stop);
        at := stop;
      }
      if nbytes > 0 && tx.response.Incomplete? {
        tx.response := Ok;
      }
    }

    /** Serve the part of an access that lies inside the register. */
    method Receive(tx: Payload, info: Sideband) returns (nbytes: nat)
      requires Valid() && tx.HasData() && tx.streaming == tx.length
      modifies this, tx`response, tx`length, tx`streaming, tx.buffer
      ensures Valid() && SameConfiguration()
      ensures tx.length == old(tx.length) && tx.streaming == old(tx.streaming)
      ensures nbytes == |HitsIn(geo, tx.address, tx.address + tx.length)|
      ensures tx.response == if nbytes > 0 && old(tx.response).Incomplete? then Ok else old(tx.response)
      ensures tx.buffer[..] == if tx.command.Read?
        then Loaded(old(tx.buffer[..]), old(Image(Slot(info.cpu))), tx.dataPtr - tx.address,
                    tx.address, tx.address + tx.length)
        else old(tx.buffer[..])
      ensures Image(Slot(info.cpu)) == if tx.command.Write?
        then Stored(old(Image(Slot(info.cpu))), old(tx.buffer[..]), tx.dataPtr - tx.address,
                    tx.address, tx.address + tx.length)
        else old(Image(Slot(info.cpu)))
      ensures forall b :: b != Slot(info.cpu) ==> Row(b) == old(Row(b))
    {
      hide RowImage, Stored, Loaded;
      var addr, size, strw := tx.address, tx.length, tx.streaming;
      var delta := tx.dataPtr - addr;
      ImageKeys(geo, endian, Row(Slot(info.cpu)));
      if addr >= geo.Size() {
        Outside(geo, Image(Slot(info.cpu)), tx.buffer[..], delta, addr, addr, addr + size);
        return 0;
      }
      var limit := if addr + size < geo.Size() then addr + size else geo.Size();
      var length := limit - addr;
      Outside(geo, Image(Slot(info.cpu)), tx.buffer[..], delta, addr, limit, addr + size);
      tx.streaming := length;
      tx.length := length;
      nbytes := DoReceive(tx, info);
      tx.length := size;
      tx.streaming := strw;
    }
  }
}
