/** Debug access to virtual memory: a page-wise loop over physical accesses. */
module VirtualMemories {
  import opened ByteOrder
  import opened Layout
  import opened Wrappers

  /** A translation that maps whole pages, or none at all: then virtual addresses are physical ones. */
  datatype Paging = Flat | Paged(size: nat, frame: nat -> Option<nat>) {
    predicate Valid() {
      Paged? ==> size > 0
    }

    function Translate(va: nat): Option<nat>
      requires Valid()
    {
      if Flat? then Some(va)
      else match frame(va / size) case None => None case Some(base) => Some(base + va % size)
    }

    /** The bytes from `va` that one turn of the page loop handles. */
    function Chunk(va: nat, end: nat): (n: nat)
      requires Valid() && Paged? && va < end
      ensures 0 < n <= end - va && n <= size - va % size
      ensures n == end - va || n == size - va % size
    {
      if end - va < size - va % size then end - va else size - va % size
    }
  }

  /** Consecutive bytes of a page are translated to consecutive physical bytes, or not at all. */
  lemma ChunkIsLinear(p: Paging, va: nat, end: nat, k: nat)
    requires p.Valid() && p.Paged? && va < end && k < p.Chunk(va, end)
    ensures p.Translate(va + k) == (match p.Translate(va) case None => None case Some(pa) => Some(pa + k))
  {
    SamePage(va, k, p.size);
  }

  lemma SamePage(va: nat, k: nat, size: nat)
    requires size > 0 && va % size + k < size
    ensures (va + k) / size == va / size && (va + k) % size == va % size + k
  {
    DivModUnique(va + k, size, va / size, va % size + k);
  }

  // Bytewise meaning

  /** Bytes `from` to `from + n` of the data stored at physical address `pa`, where there is memory. */
  function Physical(m: Memory, data: seq<u8>, from: nat, pa: nat, n: nat): (r: Memory)
    requires from + n <= |data|
    ensures r.Keys == m.Keys
  {
    if n == 0 then m else
      var r := Physical(m, data, from, pa, n - 1);
      if pa + (n - 1) in r then r[pa + (n - 1) := data[from + n - 1]] else r
  }

  /** The first `n` bytes of the data stored one by one, each at the translation of its own address. */
  function Stored(p: Paging, m: Memory, data: seq<u8>, va: nat, n: nat): (r: Memory)
    requires p.Valid() && n <= |data|
    ensures r.Keys == m.Keys
  {
    if n == 0 then m else
      var r := Stored(p, m, data, va, n - 1);
      match p.Translate(va + (n - 1))
      case None => r
      case Some(pa) => if pa in r then r[pa := data[n - 1]] else r
  }

  predicate Present(p: Paging, m: Memory, va: nat)
    requires p.Valid()
  {
    p.Translate(va).Some? && p.Translate(va).value in m
  }

  /** How many of the first `n` bytes from `va` have memory behind them. */
  function Reachable(p: Paging, m: Memory, va: nat, n: nat): nat
    requires p.Valid()
  {
    if n == 0 then 0 else Reachable(p, m, va, n - 1) + if Present(p, m, va + (n - 1)) then 1 else 0
  }

  /** The addresses of the range that are translated to existing memory. */
  ghost function Accessible(p: Paging, m: Memory, va: nat, n: nat): set<nat>
    requires p.Valid()
  {
    set x: nat | va <= x < va + n && p.Translate(x).Some? && p.Translate(x).value in m
  }

  lemma {:induction false} ReachableIsCount(p: Paging, m: Memory, va: nat, n: nat)
    requires p.Valid()
    ensures Reachable(p, m, va, n) == |Accessible(p, m, va, n)|
  {
    if n == 0 {
      assert Accessible(p, m, va, 0) == {};
    } else {
      hide Paging.Translate;
      ReachableIsCount(p, m, va, n - 1);
      var last := va + (n - 1);
      var was := Accessible(p, m, va, n - 1);
      assert Accessible(p, m, va, n) == if Present(p, m, last) then was + {last} else was;
    }
  }

  function Backed(m: Memory, pa: nat, n: nat): nat {
    if n == 0 then 0 else Backed(m, pa, n - 1) + if pa + (n - 1) in m then 1 else 0
  }

  lemma {:induction false} StoredByChunk(p: Paging, m: Memory, data: seq<u8>, va: nat, from: nat, end: nat, n: nat)
    requires p.Valid() && p.Paged? && va + from < end && n <= p.Chunk(va + from, end) && from + n <= |data|
    ensures Stored(p, m, data, va, from + n) ==
      match p.Translate(va + from)
      case None => Stored(p, m, data, va, from)
      case Some(pa) => Physical(Stored(p, m, data, va, from), data, from, pa, n)
  {
    hide Paging.Translate, Paging.Chunk;
    if n > 0 {
      StoredByChunk(p, m, data, va, from, end, n - 1);
      ChunkIsLinear(p, va + from, end, n - 1);
      assert va + from + (n - 1) == va + (from + n - 1);
    }
  }

  lemma {:induction false} ReachableByChunk(p: Paging, m: Memory, va: nat, from: nat, end: nat, n: nat)
    requires p.Valid() && p.Paged? && va + from < end && n <= p.Chunk(va + from, end)
    ensures Reachable(p, m, va, from + n) == Reachable(p, m, va, from) +
      match p.Translate(va + from) case None => 0 case Some(pa) => Backed(m, pa, n)
  {
    hide Paging.Translate, Paging.Chunk;
    if n > 0 {
      ReachableByChunk(p, m, va, from, end, n - 1);
      ChunkIsLinear(p, va + from, end, n - 1);
      assert va + from + (n - 1) == va + (from + n - 1);
    }
  }

  lemma {:induction false} FlatIsPhysical(m: Memory, data: seq<u8>, va: nat, n: nat)
    requires n <= |data|
    ensures Stored(Flat, m, data, va, n) == Physical(m, data, 0, va, n)
    ensures Reachable(Flat, m, va, n) == Backed(m, va, n)
  {
    if n > 0 {
      FlatIsPhysical(m, data, va, n - 1);
    }
  }

  lemma {:induction false} OnlyKeysMatter(p: Paging, m: Memory, m': Memory, va: nat, pa: nat, n: nat)
    requires p.Valid() && m.Keys == m'.Keys
    ensures Reachable(p, m, va, n) == Reachable(p, m', va, n) && Backed(m, pa, n) == Backed(m', pa, n)
  {
    if n > 0 {
      OnlyKeysMatter(p, m, m', va, pa, n - 1);
      assert forall a :: a in m <==> a in m.Keys;
      assert forall a :: a in m' <==> a in m'.Keys;
    }
  }

  /** Every byte below `n` has memory of its own. */
  ghost predicate Mapped(p: Paging, m: Memory, va: nat, n: nat)
    requires p.Valid()
  {
    && (forall x: nat :: va <= x < va + n ==> Present(p, m, x))
    && (forall x: nat, y: nat :: va <= x < y < va + n ==> p.Translate(x) != p.Translate(y))
  }

  /** Where virtual addresses have memory of their own, it holds the byte that was stored; all else is as before. */
  lemma {:induction false} StoredAt(p: Paging, m: Memory, data: seq<u8>, va: nat, n: nat, i: nat)
    requires p.Valid() && n <= |data| && Mapped(p, m, va, n) && i < n
    ensures p.Translate(va + i).Some? && p.Translate(va + i).value in Stored(p, m, data, va, n)
    ensures Stored(p, m, data, va, n)[p.Translate(va + i).value] == data[i]
  {
    hide Paging.Translate, Present;
    PresentStays(p, m, Stored(p, m, data, va, n - 1), va + (n - 1));
    assert Present(p, m, va + i) && Present(p, m, va + (n - 1));
    PresentMeans(p, m, va + i);
    PresentMeans(p, m, va + (n - 1));
    if i < n - 1 {
      StoredAt(p, m, data, va, n - 1, i);
    }
  }

  lemma PresentMeans(p: Paging, m: Memory, va: nat)
    requires p.Valid()
    ensures Present(p, m, va) <==> p.Translate(va).Some? && p.Translate(va).value in m
  {
  }

  lemma PresentStays(p: Paging, m: Memory, m': Memory, va: nat)
    requires p.Valid() && m.Keys == m'.Keys
    ensures Present(p, m, va) == Present(p, m', va)
  {
  }

  /** Memory that no address of the range is translated to stays as it is. */
  lemma {:induction false} StoredElsewhere(p: Paging, m: Memory, data: seq<u8>, va: nat, n: nat, a: nat)
    requires p.Valid() && n <= |data| && a in m && forall x: nat :: va <= x < va + n ==> p.Translate(x) != Some(a)
    ensures Stored(p, m, data, va, n)[a] == m[a]
  {
    if n > 0 {
      StoredElsewhere(p, m, data, va, n - 1, a);
    }
  }

  class VirtualMemory {
    const paging: Paging
    var memory: Memory

    constructor (paging: Paging, memory: Memory)
      ensures this.paging == paging && this.memory == memory
    {
      this.paging, this.memory := paging, memory;
    }

    /** The model stores what has memory and counts it. */
    method WritePhysical(pa: nat, data: seq<u8>, from: nat, n: nat) returns (count: nat)
      requires from + n <= |data|
      modifies this
      ensures memory == Physical(old(memory), data, from, pa, n) && count == Backed(old(memory), pa, n)
    {
      count := 0;
      for i := 0 to n
        invariant memory == Physical(old(memory), data, from, pa, i) && count == Backed(old(memory), pa, i)
      {
        assert pa + i in memory <==> pa + i in old(memory).Keys;
        if pa + i in memory {
          memory := memory[pa + i := data[from + i]];
          count := count + 1;
        }
      }
    }

    method ReadPhysical(pa: nat, buffer: array<u8>, pos: nat, n: nat) returns (count: nat)
      requires pos + n <= buffer.Length
      modifies buffer
      ensures count == Backed(memory, pa, n)
      ensures forall i :: 0 <= i < buffer.Length ==>
        buffer[i] == if pos <= i < pos + n && pa + (i - pos) in memory then memory[pa + (i - pos)] else old(buffer[i])
    {
      count := 0;
      for k := 0 to n
        invariant count == Backed(memory, pa, k)
        invariant forall i :: 0 <= i < buffer.Length ==>
          buffer[i] == if pos <= i < pos + k && pa + (i - pos) in memory then memory[pa + (i - pos)] else old(buffer[i])
      {
        if pa + k in memory {
          buffer[pos + k] := memory[pa + k];
          count := count + 1;
        }
      }
    }

    /** Write to virtual memory, page by page; unmapped pages are skipped. */
    method Write(addr: nat, data: seq<u8>) returns (count: nat)
      requires paging.Valid()
      modifies this
      ensures memory == Stored(paging, old(memory), data, addr, |data|)
      ensures count == Reachable(paging, old(memory), addr, |data|)
    {
      if paging.Flat? {
        FlatIsPhysical(memory, data, addr, |data|);
        count := WritePhysical(addr, data, 0, |data|);
        return;
      }
      hide Physical, Paging.Translate, Paging.Chunk;
      count := 0;
      var va, end, pos := addr, addr + |data|, 0;
      StoredNothing(paging, memory, data, addr);
      while va < end
        invariant va == addr + pos <= end
        invariant memory == Stored(paging, old(memory), data, addr, pos)
        invariant count == Reachable(paging, old(memory), addr, pos)
      {
        var todo := paging.Chunk(va, end);
        ChunkIsLinear(paging, va, end, 0);
        StoredByChunk(paging, old(memory), data, addr, pos, end, todo);
        ReachableByChunk(paging, old(memory), addr, pos, end, todo);
        var pa := paging.Translate(va);
        if pa.Some? {
          OnlyKeysMatter(paging, old(memory), memory, addr, pa.value, todo);
          var n := WritePhysical(pa.value, data, pos, todo);
          count := count + n;
        }
        va, pos := va + todo, pos + todo;
      }
    }

    method FillStart(buffer: array<u8>, n: nat)
      requires n <= buffer.Length
      modifies buffer
      ensures forall i :: n <= i < buffer.Length ==> buffer[i] == old(buffer[i])
      ensures forall i :: 0 <= i < n ==> buffer[i] == 0xee
    {
      for i := 0 to n
        invariant forall k :: n <= k < buffer.Length ==> buffer[k] == old(buffer[k])
        invariant forall k :: 0 <= k < i ==> buffer[k] == 0xee
      {
        buffer[i] := 0xee;
      }
    }

    /** Read from virtual memory, page by page. For an unmapped page the start of the buffer is filled, so a byte of the
    buffer is hidden exactly if some unmapped page has more bytes in the range than are before it. */
    method Read(addr: nat, buffer: array<u8>) returns (count: nat)
      requires paging.Valid()
      modifies buffer
      ensures count == Reachable(paging, memory, addr, buffer.Length)
      ensures forall i :: 0 <= i < buffer.Length ==>
        buffer[i] == ReadByte(paging, memory, addr, addr + buffer.Length, old(buffer[..]), buffer.Length, i)
    {
      hide Paging.Translate, Paging.Chunk, ReadByte;
      ghost var before := buffer[..];
      if paging.Flat? {
        FlatIsPhysical(memory, buffer[..], addr, buffer.Length);
        count := ReadPhysical(addr, buffer, 0, buffer.Length);
        FlatRead(memory, addr, before, buffer[..]);
        return;
      }
      count := 0;
      var va, end, pos := addr, addr + buffer.Length, 0;
      NothingRead(paging, memory, addr, end, before);
      while va < end
        invariant va == addr + pos <= end && AtChunk(paging, addr, end, va)
        invariant count == Reachable(paging, memory, addr, pos)
        invariant forall i :: 0 <= i < buffer.Length ==> buffer[i] == ReadByte(paging, memory, addr, end, before, pos, i)
      {
        var todo := paging.Chunk(va, end);
        ChunkIsLinear(paging, va, end, 0);
        ReachableByChunk(paging, memory, addr, pos, end, todo);
        ghost var bytes := buffer[..];
        var pa := paging.Translate(va);
        if pa.Some? {
          var n := ReadPhysical(pa.value, buffer, pos, todo);
          count := count + n;
        } else {
          FillStart(buffer, todo);
        }
        ReadChunk(paging, memory, addr, end, before, pos, bytes, buffer[..]);
        NextChunk(paging, addr, end, va);
        va, pos := va + todo, pos + todo;
      }
    }
  }

  /** The page loop comes to address `x`. */
  predicate AtChunk(p: Paging, va: nat, end: nat, x: nat)
    requires p.Valid() && p.Paged?
  {
    x == va || x == end || x % p.size == 0
  }

  /** At `x` the page loop fills byte `i` of the buffer. */
  predicate Fills(p: Paging, va: nat, end: nat, x: nat, i: nat)
    requires p.Valid() && p.Paged?
  {
    va <= x < end && AtChunk(p, va, end, x) && p.Translate(x).None? && i < p.Chunk(x, end)
  }

  /** So it does at some address below `va + pos`. */
  ghost predicate Hidden(p: Paging, va: nat, end: nat, pos: nat, i: nat)
    requires p.Valid()
  {
    p.Paged? && exists x: nat :: x < va + pos && Fills(p, va, end, x, i)
  }

  /** Byte `i` of the buffer once the range `va..end` was read up to `va + pos`. */
  ghost function ReadByte(p: Paging, m: Memory, va: nat, end: nat, before: seq<u8>, pos: nat, i: nat): u8
    requires p.Valid() && i < |before|
  {
    if Hidden(p, va, end, pos, i) then 0xee
    else if i < pos && Present(p, m, va + i) then m[p.Translate(va + i).value]
    else before[i]
  }

  lemma NothingRead(p: Paging, m: Memory, va: nat, end: nat, before: seq<u8>)
    requires p.Valid() && p.Paged?
    ensures forall i: nat :: i < |before| ==> ReadByte(p, m, va, end, before, 0, i) == before[i]
  {
    forall i: nat ensures !Hidden(p, va, end, 0, i) {
    }
  }

  lemma FlatRead(m: Memory, va: nat, before: seq<u8>, bytes: seq<u8>)
    requires |bytes| == |before|
    requires forall i :: 0 <= i < |bytes| ==> bytes[i] == if va + i in m then m[va + i] else before[i]
    ensures forall i: nat :: i < |bytes| ==> bytes[i] == ReadByte(Flat, m, va, va + |bytes|, before, |bytes|, i)
  {
  }

  /** A chunk ends where the next one may begin. */
  lemma ChunkEndsBefore(p: Paging, va: nat, end: nat, x: nat, y: nat)
    requires p.Valid() && p.Paged? && va <= x < y <= end && AtChunk(p, va, end, y)
    ensures x < end && x + p.Chunk(x, end) <= y
  {
    if y % p.size == 0 {
      NextPage(x, y, p.size);
    }
  }

  lemma NextPage(x: nat, y: nat, size: nat)
    requires size > 0 && x < y && y % size == 0
    ensures x + (size - x % size) <= y
  {
    var d := y / size - x / size;
    assert d * size == (y / size) * size - (x / size) * size;
    MultipleAtLeast(d, size);
  }

  lemma NextChunk(p: Paging, va: nat, end: nat, x: nat)
    requires p.Valid() && p.Paged? && va <= x < end
    ensures AtChunk(p, va, end, x + p.Chunk(x, end))
  {
    DivModUnique(x + (p.size - x % p.size), p.size, x / p.size + 1, 0);
  }

  lemma FilledAtChunk(p: Paging, va: nat, end: nat, x: nat, i: nat)
    requires p.Valid() && p.Paged? && Fills(p, va, end, x, i)
    ensures AtChunk(p, va, end, x)
  {
  }

  /** One more turn of the page loop hides what its own chunk fills, and nothing else. */
  lemma HiddenNext(p: Paging, va: nat, end: nat, pos: nat, i: nat)
    requires p.Valid() && p.Paged? && va + pos < end && AtChunk(p, va, end, va + pos)
    ensures var n := p.Chunk(va + pos, end);
      && (Hidden(p, va, end, pos + n, i) <==> Hidden(p, va, end, pos, i) || (p.Translate(va + pos).None? && i < n))
      && (Hidden(p, va, end, pos, i) ==> i < pos)
  {
    hide Paging.Translate, Paging.Chunk, AtChunk;
    var y, n := va + pos, p.Chunk(va + pos, end);
    forall x: nat | x < va + (pos + n) && Fills(p, va, end, x, i) ensures x < y || x == y {
      if x > y {
        FilledAtChunk(p, va, end, x, i);
        ChunkEndsBefore(p, va, end, y, x);
      }
    }
    if x: nat :| x < va + pos && Fills(p, va, end, x, i) {
      ChunkEndsBefore(p, va, end, x, y);
      assert x < va + (pos + n);
    }
    assert Fills(p, va, end, y, i) <==> p.Translate(y).None? && i < n;
  }

  lemma ReadChunk(p: Paging, m: Memory, va: nat, end: nat, before: seq<u8>, pos: nat, bytes: seq<u8>, bytes': seq<u8>)
    requires p.Valid() && p.Paged? && va + pos < end == va + |before| && AtChunk(p, va, end, va + pos)
    requires |bytes| == |bytes'| == |before|
    requires forall i: nat :: i < |before| ==> bytes[i] == ReadByte(p, m, va, end, before, pos, i)
    requires var n := p.Chunk(va + pos, end);
      match p.Translate(va + pos)
      case None => forall i: nat :: i < |before| ==> bytes'[i] == if i < n then 0xee else bytes[i]
      case Some(pa) => forall i: nat :: i < |before| ==>
        bytes'[i] == if pos <= i < pos + n && pa + (i - pos) in m then m[pa + (i - pos)] else bytes[i]
    ensures forall i: nat :: i < |before| ==>
      bytes'[i] == ReadByte(p, m, va, end, before, pos + p.Chunk(va + pos, end), i)
  {
    hide Paging.Translate, Paging.Chunk, AtChunk, Hidden;
    var n := p.Chunk(va + pos, end);
    forall i: nat | i < |before| ensures bytes'[i] == ReadByte(p, m, va, end, before, pos + n, i) {
      HiddenNext(p, va, end, pos, i);
      if pos <= i < pos + n {
        ChunkIsLinear(p, va + pos, end, i - pos);
        assert va + pos + (i - pos) == va + i;
      }
    }
  }

  ghost predicate AllPresent(p: Paging, m: Memory, va: nat, n: nat)
    requires p.Valid()
  {
    forall x: nat :: va <= x < va + n ==> Present(p, m, x)
  }

  /** Of a range that is all there, every byte is read. */
  lemma PresentIsRead(p: Paging, m: Memory, va: nat, before: seq<u8>, i: nat)
    requires p.Valid() && AllPresent(p, m, va, |before|) && i < |before|
    ensures Present(p, m, va + i)
    ensures ReadByte(p, m, va, va + |before|, before, |before|, i) == m[p.Translate(va + i).value]
  {
    hide Paging.Translate, Paging.Chunk;
    assert va <= va + i < va + |before|;
    forall x: nat | va <= x < va + |before| ensures p.Translate(x).Some? {
      assert Present(p, m, x);
    }
  }

  function OnlyFirst(page: nat): Option<nat> {
    if page == 0 then Some(0) else None
  }

  /** A byte that has memory and is not read: page 0 of four bytes is mapped, page 1 is not, and the second turn fills
  the start of the buffer. */
  lemma HiddenByte(v: u8, before: seq<u8>)
    requires |before| == 8
    ensures var p, m := Paged(4, OnlyFirst), map[0 := v, 1 := v, 2 := v, 3 := v];
      && p.Valid() && Present(p, m, 0) && m[p.Translate(0).value] == v
      && forall i: nat :: i < 4 ==> ReadByte(p, m, 0, 8, before, 8, i) == 0xee
  {
    var p := Paged(4, OnlyFirst);
    forall i: nat | i < 4 ensures Hidden(p, 0, 8, 8, i) {
      assert Fills(p, 0, 8, 4, i);
    }
  }

  /** What was written to mapped memory is read back, whatever the page size and the translation are. */
  method WriteThenRead(v: VirtualMemory, addr: nat, data: seq<u8>, buffer: array<u8>) returns (written: nat, count: nat)
    requires v.paging.Valid() && Mapped(v.paging, v.memory, addr, |data|) && buffer.Length == |data|
    modifies v, buffer
    ensures buffer[..] == data && written == count == |data|
    ensures v.memory == Stored(v.paging, old(v.memory), data, addr, |data|)
  {
    hide Present, Paging.Translate, ReadByte;
    ghost var m, before := v.memory, buffer[..];
    written := v.Write(addr, data);
    assert AllPresent(v.paging, v.memory, addr, |data|) by {
      forall x: nat | addr <= x < addr + |data| ensures Present(v.paging, v.memory, x) {
        PresentStays(v.paging, m, v.memory, x);
      }
    }
    count := v.Read(addr, buffer);
    AllReachable(v.paging, m, addr, |data|);
    AllReachable(v.paging, v.memory, addr, |data|);
    forall i | 0 <= i < |data| ensures buffer[i] == data[i] {
      StoredAt(v.paging, m, data, addr, |data|, i);
      PresentIsRead(v.paging, v.memory, addr, before, i);
    }
  }

  lemma {:induction false} AllReachable(p: Paging, m: Memory, va: nat, n: nat)
    requires p.Valid() && AllPresent(p, m, va, n)
    ensures Reachable(p, m, va, n) == n
  {
    if n > 0 {
      AllReachable(p, m, va, n - 1);
    }
  }

  lemma StoredNothing(p: Paging, m: Memory, data: seq<u8>, va: nat)
    requires p.Valid()
    ensures Stored(p, m, data, va, 0) == m && Reachable(p, m, va, 0) == 0
  {
  }
}
