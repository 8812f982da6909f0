/** What a bank of registers means: a sparse byte memory with access rules.

The definitions here do not follow the scan of the bank. They say which registers take part in
an access, which addresses are served and what the memory and the transaction hold afterwards.
*/
module BankSpec {
  import opened ByteOrder
  import opened Layout
  import opened Registers

  /** A register placed in an address space. */
  datatype Mapped = Mapped(base: nat, geo: Geometry, rules: Rules) {
    predicate At(a: int)
      requires geo.Valid()
    {
      CellAt(geo, base, a)
    }

    /** The register takes only accesses to one whole cell. */
    predicate Natural() {
      rules.aligned && rules.minSize == geo.cellSize == rules.maxSize
    }
  }

  /** An access to a bank with its status so far. */
  datatype Query = Query(command: Command, address: nat, length: nat, response: Response, info: Sideband) {
    predicate Window(a: int) {
      address <= a < address + length
    }
  }

  ghost predicate WellPlaced(es: seq<Mapped>) {
    && (forall i :: 0 <= i < |es| ==> es[i].geo.Valid())
    && (forall i, j :: 0 <= i < j < |es| ==> es[i].base < es[j].base)
    && (forall i, j, a: int :: 0 <= i < j < |es| && es[i].At(a) ==> !es[j].At(a))
  }

  /** Some byte of the window belongs to the register. */
  ghost predicate Touches(e: Mapped, q: Query)
    requires e.geo.Valid()
  {
    exists a: int :: q.Window(a) && e.At(a)
  }

  /** What the rules of a register ask of an access that is not for debugging. */
  predicate Admits(e: Mapped, q: Query) {
    q.info.isDebug ||
    (&& (q.command.Read? ==> e.rules.readable)
     && (q.command.Write? ==> e.rules.writeable)
     && e.rules.minSize <= q.length <= e.rules.maxSize
     && (e.rules.aligned && e.rules.minSize > 0 ==> q.address % e.rules.minSize == 0)
     && e.rules.privilege <= q.info.privilege
     && (e.rules.secure ==> q.info.isSecure))
  }

  /** A natural-only register grants only aligned accesses to one whole cell, unless they are for debugging. */
  lemma NaturalGrantsCells(e: Mapped, q: Query)
    requires e.geo.Valid() && e.Natural() && Admits(e, q) && !q.info.isDebug
    ensures q.length == e.geo.cellSize && q.address % e.geo.cellSize == 0
  {
  }

  /** No register above or at `i` refuses the access, and none above `i` ends it by being natural-only. */
  ghost predicate Reached(es: seq<Mapped>, i: int, q: Query)
    requires WellPlaced(es) && 0 <= i
  {
    && !Failed(q.response)
    && forall j :: i <= j < |es| && Touches(es[j], q) ==> Admits(es[j], q) && (j > i ==> !es[j].Natural())
  }

  ghost predicate Serves(es: seq<Mapped>, i: int, q: Query)
    requires WellPlaced(es) && 0 <= i < |es|
  {
    Touches(es[i], q) && Reached(es, i, q)
  }

  /** The bytes of the window served by the registers from `i` on. */
  ghost function ServedFrom(es: seq<Mapped>, i: nat, q: Query): set<nat>
    requires WellPlaced(es)
  {
    set a: nat | q.address <= a < q.address + q.length && ServedAt(es, i, q, a)
  }

  ghost predicate ServedAt(es: seq<Mapped>, i: nat, q: Query, a: nat)
    requires WellPlaced(es)
  {
    exists j :: i <= j < |es| && Serves(es, j, q) && es[j].At(a)
  }

  /** A register from `i` on was asked and refused. */
  ghost predicate RefusedFrom(es: seq<Mapped>, i: nat, q: Query)
    requires WellPlaced(es)
  {
    exists j :: i <= j < |es| && Touches(es[j], q) && !Admits(es[j], q) && Asked(es, j, q)
  }

  ghost predicate Asked(es: seq<Mapped>, i: nat, q: Query)
    requires WellPlaced(es)
  {
    forall j :: i < j < |es| && Serves(es, j, q) ==> !es[j].Natural()
  }

  ghost function StatusFrom(es: seq<Mapped>, i: nat, q: Query): Response
    requires WellPlaced(es)
  {
    if RefusedFrom(es, i, q) then CommandError
    else if q.response.Incomplete? && ServedFrom(es, i, q) != {} then Ok
    else q.response
  }

  /** The memory after the served bytes of a write. */
  ghost function StoredAt(m: Memory, s: set<nat>, buf: seq<u8>, delta: int): Memory
    requires forall a :: a in s ==> 0 <= a + delta < |buf|
  {
    map a | a in m :: if a in s then buf[a + delta] else m[a]
  }

  /** The buffer after the served bytes of a read. */
  ghost function LoadedAt(buf: seq<u8>, m: Memory, s: set<nat>, delta: int): (r: seq<u8>)
    requires forall a :: a in s ==> a in m
    ensures |r| == |buf|
  {
    seq(|buf|, i requires 0 <= i < |buf| => if i - delta in s then m[i - delta] else buf[i])
  }

  /** The bytes of the window that lie in one register. */
  ghost function Share(e: Mapped, q: Query): set<nat>
    requires e.geo.Valid()
  {
    set a: nat | q.address <= a < q.address + q.length && e.At(a)
  }

  ghost function Placed(e: Mapped, lo: nat, hi: nat): set<nat>
    requires e.geo.Valid()
  {
    set a: nat | e.base + lo <= a < e.base + hi && e.At(a)
  }

  lemma AtShifted(e: Mapped, k: nat)
    requires e.geo.Valid()
    ensures e.At(e.base + k) <==> e.geo.Hit(k)
  {
  }

  lemma PlacedStep(e: Mapped, lo: nat, hi: nat, a: nat)
    requires e.geo.Valid() && lo < hi && a == e.base + hi - 1
    ensures |Placed(e, lo, hi)| == |Placed(e, lo, hi - 1)| + if e.At(a) then 1 else 0
  {
    hide Mapped.At;
    assert Placed(e, lo, hi) == Placed(e, lo, hi - 1) + (if e.At(a) then {a} else {}) by {
      forall x: nat ensures x in Placed(e, lo, hi) <==> x in Placed(e, lo, hi - 1) || (x == a && e.At(x)) {
      }
    }
  }

  lemma HitsStep(g: Geometry, lo: nat, hi: nat)
    requires g.Valid() && lo < hi
    ensures |HitsIn(g, lo, hi)| == |HitsIn(g, lo, hi - 1)| + if g.Hit(hi - 1) then 1 else 0
  {
    hide Geometry.Hit;
    assert HitsIn(g, lo, hi) == HitsIn(g, lo, hi - 1) + (if g.Hit(hi - 1) then {hi - 1} else {});
  }

  lemma NothingPlaced(e: Mapped, lo: nat, hi: nat)
    requires e.geo.Valid() && hi <= lo
    ensures Placed(e, lo, hi) == {} && HitsIn(e.geo, lo, hi) == {}
  {
  }

  lemma {:induction false} PlacedCount(e: Mapped, lo: nat, hi: nat)
    requires e.geo.Valid()
    ensures |Placed(e, lo, hi)| == |HitsIn(e.geo, lo, hi)|
    decreases hi
  {
    hide Geometry.Hit, Mapped.At, Placed, HitsIn;
    if lo < hi {
      PlacedCount(e, lo, hi - 1);
      AtShifted(e, hi - 1);
      PlacedStep(e, lo, hi, e.base + hi - 1);
      HitsStep(e.geo, lo, hi);
    } else {
      NothingPlaced(e, lo, hi);
    }
  }

  /** The part of the window that lies between the ends of the register, in register offsets. */
  lemma Clipped(e: Mapped, q: Query, start: nat, end: nat)
    requires e.geo.Valid() && Touches(e, q)
    requires start == if q.address < e.base then e.base else q.address
    requires end == if q.address + q.length < e.base + e.geo.Size() then q.address + q.length else e.base + e.geo.Size()
    ensures e.base <= start < end && q.address <= start && end <= q.address + q.length
    ensures forall k: nat :: e.geo.Hit(k) ==> (start - e.base <= k < end - e.base <==> q.Window(e.base + k))
    ensures |Share(e, q)| == |HitsIn(e.geo, start - e.base, end - e.base)| > 0
    ensures forall a :: a in Share(e, q) ==> q.Window(a)
  {
    var a: int :| q.Window(a) && e.At(a);
    PlacedCount(e, start - e.base, end - e.base);
    assert Share(e, q) == Placed(e, start - e.base, end - e.base);
    ShareNotEmpty(e, q);
  }

  ghost predicate Covered(es: seq<Mapped>, a: int)
    requires WellPlaced(es)
  {
    exists i :: 0 <= i < |es| && es[i].At(a)
  }

  ghost function Owner(es: seq<Mapped>, a: int): (i: nat)
    requires WellPlaced(es) && Covered(es, a)
    ensures i < |es| && es[i].At(a)
  {
    var i :| 0 <= i < |es| && es[i].At(a);
    i
  }

  lemma OwnerUnique(es: seq<Mapped>, a: int, i: nat)
    requires WellPlaced(es) && i < |es| && es[i].At(a)
    ensures Covered(es, a) && Owner(es, a) == i
  {
  }

  ghost function End(es: seq<Mapped>, i: nat): (n: nat)
    requires i <= |es| && forall j :: 0 <= j < |es| ==> es[j].geo.Valid()
    ensures forall j, a: int :: i <= j < |es| && es[j].At(a) ==> a < n
    decreases |es| - i
  {
    if i == |es| then 0 else
      var m, last := End(es, i + 1), es[i].base + es[i].geo.Size();
      if m < last then last else m
  }

  /** The images of all registers hold exactly the bytes of their cells. */
  ghost predicate Fits(es: seq<Mapped>, images: seq<Memory>)
    requires WellPlaced(es)
  {
    |images| == |es| && forall i, k: nat :: 0 <= i < |es| ==> (k in images[i] <==> es[i].geo.Hit(k))
  }

  /** The bank as one memory. */
  ghost function View(es: seq<Mapped>, images: seq<Memory>): (m: Memory)
    requires WellPlaced(es) && Fits(es, images)
  {
    map a: nat | a < End(es, 0) && Covered(es, a) :: ByteAt(es, images, a)
  }

  ghost function ByteAt(es: seq<Mapped>, images: seq<Memory>, a: nat): u8
    requires WellPlaced(es) && Fits(es, images) && Covered(es, a)
  {
    images[Owner(es, a)][a - es[Owner(es, a)].base]
  }

  lemma ViewAt(es: seq<Mapped>, images: seq<Memory>, a: nat, i: nat)
    requires WellPlaced(es) && Fits(es, images) && i < |es| && es[i].At(a)
    ensures a in View(es, images) && View(es, images)[a] == images[i][a - es[i].base]
  {
    hide WellPlaced, Fits, Owner, End;
    OwnerUnique(es, a, i);
    BelowEnd(es, a, i);
  }

  lemma BelowEnd(es: seq<Mapped>, a: nat, i: nat)
    requires WellPlaced(es) && i < |es| && es[i].At(a)
    ensures a < End(es, 0)
  {
    hide End;
  }

  /** Where the images of a register agree, the banks agree. */
  lemma SameImageSameByte(es: seq<Mapped>, images: seq<Memory>, others: seq<Memory>, i: nat, a: nat)
    requires WellPlaced(es) && Fits(es, images) && Fits(es, others) && i < |es| && es[i].At(a)
    requires images[i] == others[i]
    ensures a in View(es, images) && a in View(es, others) && View(es, others)[a] == View(es, images)[a]
  {
    hide WellPlaced, View;
    ViewAt(es, images, a, i);
    ViewAt(es, others, a, i);
  }

  /** The addresses that lie in registers without banks. */
  ghost function SharedAddresses(es: seq<Mapped>, banked: seq<bool>): set<nat>
    requires WellPlaced(es) && |banked| == |es|
  {
    set a: nat | a < End(es, 0) && InUnbanked(es, banked, a)
  }

  ghost predicate InUnbanked(es: seq<Mapped>, banked: seq<bool>, a: int)
    requires WellPlaced(es) && |banked| == |es|
  {
    exists i :: 0 <= i < |es| && es[i].At(a) && !banked[i]
  }

  lemma SharedIff(es: seq<Mapped>, banked: seq<bool>, i: nat, a: nat)
    requires WellPlaced(es) && |banked| == |es| && i < |es| && es[i].At(a)
    ensures a in SharedAddresses(es, banked) <==> !banked[i]
  {
    assert a < End(es, 0);
  }

  /** What another processor sees of an access: at shared addresses what the acting processor sees, elsewhere what
  it saw before. */
  lemma OtherView(es: seq<Mapped>, banked: seq<bool>, mine: seq<Memory>, mine': seq<Memory>,
                  theirs: seq<Memory>, theirs': seq<Memory>, a: nat)
    requires WellPlaced(es) && |banked| == |es|
    requires Fits(es, mine) && Fits(es, mine') && Fits(es, theirs) && Fits(es, theirs')
    requires forall i :: 0 <= i < |es| ==>
      if banked[i] then theirs'[i] == theirs[i] else theirs[i] == mine[i] && theirs'[i] == mine'[i]
    requires a in View(es, theirs')
    ensures a in View(es, theirs) && a in View(es, mine) && a in View(es, mine')
    ensures if a in SharedAddresses(es, banked)
      then View(es, theirs')[a] == View(es, mine')[a] && View(es, theirs)[a] == View(es, mine)[a]
      else View(es, theirs')[a] == View(es, theirs)[a]
  {
    var i := Owner(es, a);
    hide WellPlaced, View, SharedAddresses, Owner;
    SharedIff(es, banked, i, a);
    SameImageSameByte(es, theirs', if banked[i] then theirs else mine', i, a);
    SameImageSameByte(es, theirs, if banked[i] then theirs else mine, i, a);
    SameImageSameByte(es, mine, mine, i, a);
    SameImageSameByte(es, mine', mine', i, a);
  }

  lemma SameKeys(es: seq<Mapped>, images: seq<Memory>, others: seq<Memory>)
    requires WellPlaced(es) && Fits(es, images) && Fits(es, others)
    ensures View(es, images).Keys == View(es, others).Keys
  {
  }

  /** One more register that serves adds its share; the shares are disjoint. */
  lemma ServedStep(es: seq<Mapped>, i: nat, q: Query)
    requires WellPlaced(es) && i < |es|
    ensures ServedFrom(es, i, q) == ServedFrom(es, i + 1, q) + (if Serves(es, i, q) then Share(es[i], q) else {})
    ensures ServedFrom(es, i + 1, q) !! Share(es[i], q)
  {
    forall a: nat ensures ServedAt(es, i, q, a) <==> ServedAt(es, i + 1, q, a) || (Serves(es, i, q) && es[i].At(a)) {
    }
  }

  /** Writing to one register is writing its share to the memory. */
  lemma WriteStep(es: seq<Mapped>, images: seq<Memory>, i: nat, q: Query, buf: seq<u8>, delta: int,
                  from: nat, to: nat, after: seq<Memory>)
    requires WellPlaced(es) && Fits(es, images) && i < |es|
    requires q.length > 0 ==> 0 <= q.address + delta && q.address + q.length + delta <= |buf|
    requires InBuffer(|buf|, es[i].base + delta, from, to)
    requires forall k: nat :: es[i].geo.Hit(k) ==> (from <= k < to <==> q.Window(es[i].base + k))
    requires after == images[i := Stored(images[i], buf, es[i].base + delta, from, to)]
    ensures Fits(es, after)
    ensures View(es, after) == StoredAt(View(es, images), Share(es[i], q), buf, delta)
  {
    hide ByteAt;
    forall a: nat | Covered(es, a)
      ensures ByteAt(es, after, a) == if a in Share(es[i], q) then buf[a + delta] else ByteAt(es, images, a)
    {
      WriteByte(es, images, i, q, buf, delta, from, to, after, a);
    }
  }

  lemma WriteByte(es: seq<Mapped>, images: seq<Memory>, i: nat, q: Query, buf: seq<u8>, delta: int,
                  from: nat, to: nat, after: seq<Memory>, a: nat)
    requires WellPlaced(es) && Fits(es, images) && Fits(es, after) && i < |es| && Covered(es, a)
    requires q.length > 0 ==> 0 <= q.address + delta && q.address + q.length + delta <= |buf|
    requires InBuffer(|buf|, es[i].base + delta, from, to)
    requires forall k: nat :: es[i].geo.Hit(k) ==> (from <= k < to <==> q.Window(es[i].base + k))
    requires after == images[i := Stored(images[i], buf, es[i].base + delta, from, to)]
    ensures ByteAt(es, after, a) == if a in Share(es[i], q) then buf[a + delta] else ByteAt(es, images, a)
  {
    var j := Owner(es, a);
    var k := a - es[i].base;
    if j == i {
      assert es[i].geo.Hit(k);
      assert a == es[i].base + k;
    } else if es[i].At(a) {
      OwnerUnique(es, a, i);
    }
  }

  /** Reading one register is reading its share of the memory. */
  lemma ReadStep(es: seq<Mapped>, images: seq<Memory>, i: nat, q: Query, buf: seq<u8>, delta: int,
                 from: nat, to: nat)
    requires WellPlaced(es) && Fits(es, images) && i < |es|
    requires InBuffer(|buf|, es[i].base + delta, from, to)
    requires forall k: nat :: es[i].geo.Hit(k) ==> (from <= k < to <==> q.Window(es[i].base + k))
    ensures forall a :: a in Share(es[i], q) ==> a in View(es, images)
    ensures Loaded(buf, images[i], es[i].base + delta, from, to) == LoadedAt(buf, View(es, images), Share(es[i], q), delta)
  {
    hide View, Loaded, LoadedAt, Share, Geometry.Hit;
    ShareInView(es, images, i, q);
    ReadBytes(es[i], images[i], View(es, images), q, buf, delta, from, to);
  }

  lemma ShareInView(es: seq<Mapped>, images: seq<Memory>, i: nat, q: Query)
    requires WellPlaced(es) && Fits(es, images) && i < |es|
    ensures forall a :: a in Share(es[i], q) ==>
      a in View(es, images) && a - es[i].base in images[i] && View(es, images)[a] == images[i][a - es[i].base]
  {
    hide View;
    forall a | a in Share(es[i], q)
      ensures a in View(es, images) && a - es[i].base in images[i] && View(es, images)[a] == images[i][a - es[i].base]
    {
      ViewAt(es, images, a, i);
      assert es[i].geo.Hit(a - es[i].base);
    }
  }

  lemma ReadBytes(e: Mapped, image: Memory, m: Memory, q: Query, buf: seq<u8>, delta: int, from: nat, to: nat)
    requires e.geo.Valid() && forall k: nat :: k in image <==> e.geo.Hit(k)
    requires InBuffer(|buf|, e.base + delta, from, to)
    requires forall k: nat :: e.geo.Hit(k) ==> (from <= k < to <==> q.Window(e.base + k))
    requires forall a :: a in Share(e, q) ==> a in m && m[a] == image[a - e.base]
    ensures Loaded(buf, image, e.base + delta, from, to) == LoadedAt(buf, m, Share(e, q), delta)
  {
    var x := Loaded(buf, image, e.base + delta, from, to);
    var y := LoadedAt(buf, m, Share(e, q), delta);
    forall p | 0 <= p < |buf| ensures x[p] == y[p] {
      var a := p - delta;
      var k := a - e.base;
      assert k >= 0 ==> (k in image <==> e.geo.Hit(k));
      assert a in Share(e, q) <==> a >= 0 && q.Window(a) && e.geo.Hit(k);
      assert k >= 0 && e.geo.Hit(k) ==> e.base + k == a;
    }
  }

  /** What an access does to the memory and to the buffer when it is served at the addresses `s`. */
  ghost predicate Effect(cmd: Command, m: Memory, buf: seq<u8>, delta: int, s: set<nat>, m': Memory, buf': seq<u8>) {
    && (forall a :: a in s ==> a in m && 0 <= a + delta < |buf|)
    && m' == (if cmd.Write? then StoredAt(m, s, buf, delta) else m)
    && buf' == (if cmd.Read? then LoadedAt(buf, m, s, delta) else buf)
  }

  lemma EffectOfNothing(cmd: Command, m: Memory, buf: seq<u8>, delta: int)
    ensures Effect(cmd, m, buf, delta, {}, m, buf)
  {
  }

  /** Effects at two sets of addresses add up. */
  lemma EffectUnion(cmd: Command, m: Memory, buf: seq<u8>, delta: int, s: set<nat>, m1: Memory, buf1: seq<u8>,
                    t: set<nat>, m2: Memory, buf2: seq<u8>)
    requires Effect(cmd, m, buf, delta, s, m1, buf1) && Effect(cmd, m1, buf1, delta, t, m2, buf2)
    ensures Effect(cmd, m, buf, delta, s + t, m2, buf2)
  {
    if cmd.Write? {
      StoredUnion(m, s, t, buf, delta);
    } else if cmd.Read? {
      LoadedUnion(buf, m, s, t, delta);
    }
  }

  lemma StoredUnion(m: Memory, s: set<nat>, t: set<nat>, buf: seq<u8>, delta: int)
    requires forall a :: a in s || a in t ==> 0 <= a + delta < |buf|
    ensures StoredAt(StoredAt(m, s, buf, delta), t, buf, delta) == StoredAt(m, s + t, buf, delta)
  {
  }

  lemma LoadedUnion(buf: seq<u8>, m: Memory, s: set<nat>, t: set<nat>, delta: int)
    requires forall a :: a in s || a in t ==> a in m
    ensures LoadedAt(LoadedAt(buf, m, s, delta), m, t, delta) == LoadedAt(buf, m, s + t, delta)
  {
  }

  /** Moving the bytes of one register's image is the effect at its share of the window. */
  lemma ShareMoved(es: seq<Mapped>, images: seq<Memory>, i: nat, q: Query, buf: seq<u8>, delta: int,
                   from: nat, to: nat, after: seq<Memory>, buf': seq<u8>)
    requires WellPlaced(es) && Fits(es, images) && i < |es|
    requires q.length > 0 ==> 0 <= q.address + delta && q.address + q.length + delta <= |buf|
    requires InBuffer(|buf|, es[i].base + delta, from, to)
    requires forall k: nat :: es[i].geo.Hit(k) ==> (from <= k < to <==> q.Window(es[i].base + k))
    requires after == if q.command.Write?
      then images[i := Stored(images[i], buf, es[i].base + delta, from, to)] else images
    requires buf' == if q.command.Read? then Loaded(buf, images[i], es[i].base + delta, from, to) else buf
    ensures Fits(es, after)
    ensures Effect(q.command, View(es, images), buf, delta, Share(es[i], q), View(es, after), buf')
  {
    ShareInWindow(es, i, q);
    hide WellPlaced, Fits, Stored, Loaded, StoredAt, LoadedAt, View, Share, Geometry.Hit, InBuffer;
    ReadStep(es, images, i, q, buf, delta, from, to);
    WriteStep(es, images, i, q, buf, delta, from, to,
              images[i := Stored(images[i], buf, es[i].base + delta, from, to)]);
  }

  lemma ShareInWindow(es: seq<Mapped>, i: nat, q: Query)
    requires WellPlaced(es) && i < |es|
    ensures es[i].geo.Valid() && forall a :: a in Share(es[i], q) ==> q.Window(a)
  {
  }

  /** From `i` on nothing refused the access or ended it. */
  ghost predicate Open(es: seq<Mapped>, i: nat, q: Query)
    requires WellPlaced(es)
  {
    !Failed(q.response) && forall j :: i <= j < |es| && Touches(es[j], q) ==> Admits(es[j], q) && !es[j].Natural()
  }

  ghost predicate NotEnded(es: seq<Mapped>, i: nat, q: Query)
    requires WellPlaced(es)
  {
    forall j :: i <= j < |es| && Serves(es, j, q) ==> !es[j].Natural()
  }

  /** What one turn of the backward scan does to the status and to the served bytes. */
  lemma ScanStep(es: seq<Mapped>, i: nat, q: Query)
    requires WellPlaced(es) && i < |es| && NotEnded(es, i + 1, q)
    ensures Serves(es, i, q) <==> Touches(es[i], q) && Admits(es[i], q) && Open(es, i + 1, q)
    ensures Open(es, i, q) <==> Open(es, i + 1, q) && (Touches(es[i], q) ==> Admits(es[i], q) && !es[i].Natural())
    ensures !(Serves(es, i, q) && es[i].Natural()) ==> NotEnded(es, i, q)
    ensures StatusFrom(es, i, q) ==
      if Touches(es[i], q) && !Admits(es[i], q) then CommandError
      else if Serves(es, i, q) && StatusFrom(es, i + 1, q).Incomplete? then Ok
      else StatusFrom(es, i + 1, q)
  {
    ServedStep(es, i, q);
    assert Asked(es, i, q);
    if Serves(es, i, q) {
      ShareNotEmpty(es[i], q);
    }
    assert RefusedFrom(es, i, q) <==> RefusedFrom(es, i + 1, q) || (Touches(es[i], q) && !Admits(es[i], q)) by {
      assert forall j :: i <= j < |es| ==> Asked(es, j, q);
    }
  }

  /** The status of an access does not matter for what a register could serve. */
  lemma SameShare(e: Mapped, q: Query, q': Query)
    requires e.geo.Valid() && q' == q.(response := q'.response)
    ensures Share(e, q') == Share(e, q) && (Touches(e, q') <==> Touches(e, q)) && (Admits(e, q') <==> Admits(e, q))
  {
    assert forall a: int :: q'.Window(a) <==> q.Window(a);
  }

  lemma ShareNotEmpty(e: Mapped, q: Query)
    requires e.geo.Valid() && Touches(e, q)
    ensures Share(e, q) != {}
  {
    var a: int :| q.Window(a) && e.At(a);
    assert a in Share(e, q);
  }

  /** Behind a natural-only register that served the access nothing more happens. */
  lemma ScanEnded(es: seq<Mapped>, i: nat, q: Query)
    requires WellPlaced(es) && i < |es| && Serves(es, i, q) && es[i].Natural()
    ensures ServedFrom(es, 0, q) == ServedFrom(es, i, q) && StatusFrom(es, 0, q) == StatusFrom(es, i, q)
  {
    assert forall j :: 0 <= j < i ==> !Serves(es, j, q) && !Asked(es, j, q);
  }

  /** Once as many bytes as the window has are served, no register below has any of them. */
  lemma ScanFull(es: seq<Mapped>, i: nat, q: Query)
    requires WellPlaced(es) && i <= |es| && |ServedFrom(es, i, q)| >= q.length
    ensures ServedFrom(es, 0, q) == ServedFrom(es, i, q) && StatusFrom(es, 0, q) == StatusFrom(es, i, q)
    ensures |ServedFrom(es, i, q)| == q.length
  {
    NoneBelow(es, i, q);
  }

  lemma NoneBelow(es: seq<Mapped>, i: nat, q: Query)
    requires WellPlaced(es) && i <= |es| && |ServedFrom(es, i, q)| >= q.length
    ensures forall j :: 0 <= j < i ==> !Touches(es[j], q)
    ensures |ServedFrom(es, i, q)| == q.length
  {
    hide Serves;
    var all := Interval(q.address, q.address + q.length);
    SubsetSize(ServedFrom(es, i, q), all);
    forall j, a: int | 0 <= j < i && q.Window(a) ensures !es[j].At(a) {
      assert a in all;
      var h :| i <= h < |es| && Serves(es, h, q) && es[h].At(a);
    }
  }

  lemma SubsetSize(s: set<nat>, t: set<nat>)
    requires s <= t
    ensures |s| <= |t| && (|s| == |t| ==> s == t)
  {
    assert t == s + (t - s);
  }

  /** Registers that start behind the window take no part. */
  lemma ScanStart(es: seq<Mapped>, last: nat, q: Query)
    requires WellPlaced(es) && last <= |es|
    requires forall i :: last <= i < |es| ==> es[i].base >= q.address + q.length
    ensures forall i :: last <= i < |es| ==> !Touches(es[i], q)
    ensures ServedFrom(es, last, q) == {} && StatusFrom(es, last, q) == q.response
    ensures NotEnded(es, last, q) && (Open(es, last, q) <==> !Failed(q.response))
  {
  }

  /** How far an access has come: bytes counted, status, memory and buffer. */
  datatype Progress = Progress(count: nat, status: Response, mem: Memory, buf: seq<u8>)

  /** The registers from `i` on have done what the access means for them; it began with memory `m` and buffer `buf`. */
  ghost predicate Done(es: seq<Mapped>, i: nat, q: Query, m: Memory, buf: seq<u8>, delta: int, p: Progress)
    requires WellPlaced(es)
  {
    && p.count == |ServedFrom(es, i, q)| && p.status == StatusFrom(es, i, q)
    && Effect(q.command, m, buf, delta, ServedFrom(es, i, q), p.mem, p.buf)
  }

  /** So have they, and the scan goes on below. */
  ghost predicate Scanned(es: seq<Mapped>, i: nat, q: Query, m: Memory, buf: seq<u8>, delta: int, p: Progress)
    requires WellPlaced(es)
  {
    Done(es, i, q, m, buf, delta, p) && NotEnded(es, i, q) && (Open(es, i, q) <==> !Failed(p.status))
  }

  /** One register was asked and took its share, refused the access or was passed over. */
  ghost predicate Visited(e: Mapped, q: Query, delta: int, served: bool, before: Progress, after: Progress)
    requires e.geo.Valid()
  {
    var share := if served then Share(e, q) else {};
    && (served <==> Touches(e, q) && Admits(e, q) && !Failed(before.status))
    && after.status == (if Touches(e, q) && !Admits(e, q) then CommandError
                        else if served && before.status.Incomplete? then Ok else before.status)
    && after.count == before.count + |share|
    && Effect(q.command, before.mem, before.buf, delta, share, after.mem, after.buf)
  }

  lemma NothingScanned(es: seq<Mapped>, last: nat, q: Query, m: Memory, buf: seq<u8>, delta: int)
    requires WellPlaced(es) && last <= |es|
    requires forall i :: last <= i < |es| ==> es[i].base >= q.address + q.length
    ensures Scanned(es, last, q, m, buf, delta, Progress(0, q.response, m, buf))
  {
    hide WellPlaced, Effect, ServedFrom, StatusFrom, NotEnded, Open;
    ScanStart(es, last, q);
    EffectOfNothing(q.command, m, buf, delta);
  }

  lemma ScanIsDone(es: seq<Mapped>, q: Query, m: Memory, buf: seq<u8>, delta: int, p: Progress)
    requires WellPlaced(es) && Scanned(es, 0, q, m, buf, delta, p)
    ensures Done(es, 0, q, m, buf, delta, p)
  {
  }

  /** One turn of the scan. It may end behind a natural-only register or when the window is full. */
  lemma ScanTurn(es: seq<Mapped>, i: nat, q: Query, m: Memory, buf: seq<u8>, delta: int, served: bool,
                 before: Progress, after: Progress)
    requires WellPlaced(es) && i < |es| && Scanned(es, i + 1, q, m, buf, delta, before)
    requires Visited(es[i], q, delta, served, before, after)
    ensures served ==> Success(after.status)
    ensures served && es[i].Natural() ==> Done(es, 0, q, m, buf, delta, after)
    ensures !(served && es[i].Natural()) ==> Scanned(es, i, q, m, buf, delta, after)
    ensures after.count >= q.length ==> Done(es, 0, q, m, buf, delta, after)
  {
    assert es[i].geo.Valid();
    hide WellPlaced, Effect, ServedFrom, StatusFrom, NotEnded, Serves, Share, Touches, Admits;
    ScanStep(es, i, q);
    ServedStep(es, i, q);
    var share := if served then Share(es[i], q) else {};
    EffectUnion(q.command, m, buf, delta, ServedFrom(es, i + 1, q), before.mem, before.buf, share, after.mem, after.buf);
    assert Done(es, i, q, m, buf, delta, after) by {
      hide Open;
    }
    if served && es[i].Natural() {
      ScanEnded(es, i, q);
    }
    if after.count >= q.length {
      ScanFull(es, i, q);
    }
  }

  lemma SameVisit(e: Mapped, q: Query, q1: Query, delta: int, served: bool, before: Progress, after: Progress)
    requires e.geo.Valid() && q1 == q.(response := q1.response)
    ensures Visited(e, q1, delta, served, before, after) <==> Visited(e, q, delta, served, before, after)
  {
    hide Effect, Share, Touches, Admits;
    SameShare(e, q, q1);
  }

  /** A register that shares no byte with any other can be added at its place in the order. */
  lemma WellPlacedWith(es: seq<Mapped>, k: nat, e: Mapped)
    requires WellPlaced(es) && k <= |es| && e.geo.Valid()
    requires forall i :: 0 <= i < k ==> es[i].base < e.base
    requires forall i :: k <= i < |es| ==> e.base <= es[i].base
    requires forall i :: 0 <= i < |es| ==> !ShareByte(e.geo, e.base, es[i].geo, es[i].base)
    ensures WellPlaced(es[..k] + [e] + es[k..])
    ensures forall i :: 0 <= i < |es| ==> es[i].base != e.base
  {
    forall i, a: int | 0 <= i < |es| && es[i].At(a) ensures !e.At(a) {
      assert CellAt(es[i].geo, es[i].base, a);
    }
    forall i | 0 <= i < |es| ensures es[i].base != e.base {
      BaseIsCovered(es[i]);
      BaseIsCovered(e);
    }
    var all := es[..k] + [e] + es[k..];
    assert forall i :: 0 <= i < |all| ==> all[i] == if i < k then es[i] else if i == k then e else es[i - 1];
  }

  lemma BaseIsCovered(e: Mapped)
    requires e.geo.Valid()
    ensures e.At(e.base)
  {
    CellOf(e.geo, 0, 0);
  }

  lemma WellPlacedWithout(es: seq<Mapped>, k: nat)
    requires WellPlaced(es) && k < |es|
    ensures WellPlaced(es[..k] + es[k + 1..])
  {
    var rest := es[..k] + es[k + 1..];
    assert forall i :: 0 <= i < |rest| ==> rest[i] == if i < k then es[i] else es[i + 1];
  }

  // What a fresh access means, byte by byte

  /** A register that refuses an access and is asked: no natural-only register above it has bytes in the window. */
  ghost predicate Refusing(es: seq<Mapped>, j: int, q: Query)
    requires WellPlaced(es)
  {
    && 0 <= j < |es| && Touches(es[j], q) && !Admits(es[j], q)
    && forall i :: j < i < |es| && Touches(es[i], q) ==> !es[i].Natural()
  }

  /** Register `i` is reached by the access and grants it. */
  ghost predicate Passed(es: seq<Mapped>, i: int, q: Query)
    requires WellPlaced(es) && 0 <= i < |es|
  {
    forall j :: i <= j < |es| && Touches(es[j], q) ==> Admits(es[j], q) && (j > i ==> !es[j].Natural())
  }

  /** The bytes of the window that move. */
  ghost function Moved(es: seq<Mapped>, q: Query): set<nat>
    requires WellPlaced(es)
  {
    set a: nat | q.address <= a < q.address + q.length && MovedAt(es, q, a)
  }

  ghost predicate MovedAt(es: seq<Mapped>, q: Query, a: int)
    requires WellPlaced(es)
  {
    exists i :: 0 <= i < |es| && es[i].At(a) && Passed(es, i, q)
  }

  ghost function StatusOf(es: seq<Mapped>, q: Query): Response
    requires WellPlaced(es)
  {
    if exists j :: Refusing(es, j, q) then CommandError
    else if exists j :: 0 <= j < |es| && Touches(es[j], q) then Ok
    else Incomplete
  }

  /** Each byte of the window that belongs to a register moves exactly if the access passes that register. */
  ghost predicate BytesMoved(es: seq<Mapped>, q: Query, m: Memory, buf: seq<u8>, delta: int, m': Memory, buf': seq<u8>)
    requires WellPlaced(es)
  {
    forall i, a: nat :: 0 <= i < |es| && es[i].At(a) && q.Window(a) ==>
      && a in m && a in m' && 0 <= a + delta < |buf| == |buf'|
      && m'[a] == (if q.command.Write? && Passed(es, i, q) then buf[a + delta] else m[a])
      && buf'[a + delta] == (if q.command.Read? && Passed(es, i, q) then m[a] else buf[a + delta])
  }

  /** All other bytes stay. */
  ghost predicate RestStays(es: seq<Mapped>, q: Query, m: Memory, buf: seq<u8>, delta: int, m': Memory, buf': seq<u8>)
    requires WellPlaced(es)
  {
    && m'.Keys == m.Keys && |buf'| == |buf|
    && (forall a :: a in m && !q.Window(a) ==> a in m' && m'[a] == m[a])
    && (forall k: nat :: k < |buf| && !(q.Window(k - delta) && Covered(es, k - delta)) ==> buf'[k] == buf[k])
  }

  lemma AllValid(es: seq<Mapped>)
    requires WellPlaced(es)
    ensures forall i :: 0 <= i < |es| ==> es[i].geo.Valid()
  {
  }

  /** The scan does not come past register `i`. */
  ghost predicate Stops(es: seq<Mapped>, i: nat, q: Query)
    requires WellPlaced(es) && i < |es|
  {
    Touches(es[i], q) && (!Admits(es[i], q) || es[i].Natural())
  }

  lemma {:induction false} TopStop(es: seq<Mapped>, n: nat, j: nat, q: Query) returns (top: nat)
    requires WellPlaced(es) && j < n <= |es| && Stops(es, j, q)
    ensures j <= top < n && Stops(es, top, q) && forall i :: top < i < n ==> !Stops(es, i, q)
    decreases n
  {
    if Stops(es, n - 1, q) {
      top := n - 1;
    } else {
      top := TopStop(es, n - 1, j, q);
    }
  }

  /** The highest register that stops the scan refuses the access or serves it as the last one. */
  lemma TopDecides(es: seq<Mapped>, top: nat, q: Query)
    requires WellPlaced(es) && q.response.Incomplete? && top < |es| && Stops(es, top, q)
    requires forall i :: top < i < |es| ==> !Stops(es, i, q)
    ensures Refusing(es, top, q) || (Serves(es, top, q) && es[top].Natural())
  {
    AllValid(es);
    hide WellPlaced, Touches, Admits, Mapped.Natural;
    assert forall i :: top < i < |es| && Touches(es[i], q) ==> !Stops(es, i, q);
  }

  lemma RefusedMeans(es: seq<Mapped>, q: Query)
    requires WellPlaced(es) && q.response.Incomplete?
    ensures RefusedFrom(es, 0, q) <==> exists j :: Refusing(es, j, q)
  {
    AllValid(es);
    hide WellPlaced, Touches, Admits, Mapped.Natural, Reached;
    if j :| Refusing(es, j, q) {
      assert Asked(es, j, q);
    }
    if RefusedFrom(es, 0, q) {
      var j :| 0 <= j < |es| && Touches(es[j], q) && !Admits(es[j], q) && Asked(es, j, q);
      var top := TopStop(es, |es|, j, q);
      TopDecides(es, top, q);
    }
  }

  lemma SomeServed(es: seq<Mapped>, q: Query, i: nat)
    requires WellPlaced(es) && q.response.Incomplete? && i < |es| && Touches(es[i], q)
    ensures (exists j :: Refusing(es, j, q)) || ServedFrom(es, 0, q) != {}
  {
    AllValid(es);
    hide WellPlaced, Touches, Admits, Mapped.Natural, ServedFrom, Refusing;
    if j: nat :| j < |es| && Stops(es, j, q) {
      var top := TopStop(es, |es|, j, q);
      TopDecides(es, top, q);
      if Serves(es, top, q) {
        ServesSome(es, q, top);
      }
    } else {
      assert forall j :: 0 <= j < |es| && Touches(es[j], q) ==> !Stops(es, j, q);
      ServesSome(es, q, i);
    }
  }

  lemma ServesSome(es: seq<Mapped>, q: Query, i: nat)
    requires WellPlaced(es) && i < |es| && Serves(es, i, q)
    ensures ServedFrom(es, 0, q) != {}
  {
    var a: int :| q.Window(a) && es[i].At(a);
    hide WellPlaced, Serves;
    assert ServedAt(es, 0, q, a);
    assert a in ServedFrom(es, 0, q);
  }

  lemma StatusMeans(es: seq<Mapped>, q: Query)
    requires WellPlaced(es) && q.response.Incomplete?
    ensures StatusFrom(es, 0, q) == StatusOf(es, q)
  {
    AllValid(es);
    RefusedMeans(es, q);
    hide WellPlaced, Refusing, RefusedFrom, Touches, Mapped.At, Reached;
    if i :| 0 <= i < |es| && Touches(es[i], q) {
      SomeServed(es, q, i);
    }
    if a :| a in ServedFrom(es, 0, q) {
      var j :| 0 <= j < |es| && Serves(es, j, q) && es[j].At(a);
      assert Touches(es[j], q);
    }
  }

  lemma ServedMeans(es: seq<Mapped>, q: Query, i: nat, a: nat)
    requires WellPlaced(es) && q.response.Incomplete? && i < |es| && es[i].At(a) && q.Window(a)
    ensures a in ServedFrom(es, 0, q) <==> Passed(es, i, q)
  {
    if Passed(es, i, q) {
      assert Serves(es, i, q);
    }
    if a in ServedFrom(es, 0, q) {
      var j :| 0 <= j < |es| && Serves(es, j, q) && es[j].At(a);
      assert j == i;
    }
  }

  lemma MovedMeans(es: seq<Mapped>, q: Query)
    requires WellPlaced(es) && q.response.Incomplete?
    ensures ServedFrom(es, 0, q) == Moved(es, q)
  {
    AllValid(es);
    InWindow(es, q);
    forall a: nat ensures a in ServedFrom(es, 0, q) <==> a in Moved(es, q) {
      if a in ServedFrom(es, 0, q) {
        var i :| 0 <= i < |es| && Serves(es, i, q) && es[i].At(a);
        ServedMeans(es, q, i, a);
      }
      if a in Moved(es, q) {
        var i :| 0 <= i < |es| && es[i].At(a) && Passed(es, i, q);
        ServedMeans(es, q, i, a);
      }
    }
  }

  lemma EffectMeans(es: seq<Mapped>, q: Query, m: Memory, buf: seq<u8>, delta: int, m': Memory, buf': seq<u8>)
    requires WellPlaced(es) && q.response.Incomplete? && forall a: nat :: a in m <==> Covered(es, a)
    requires Effect(q.command, m, buf, delta, ServedFrom(es, 0, q), m', buf')
    requires forall a: nat :: q.Window(a) ==> 0 <= a + delta < |buf|
    ensures BytesMoved(es, q, m, buf, delta, m', buf') && RestStays(es, q, m, buf, delta, m', buf')
  {
    AllValid(es);
    InWindow(es, q);
    var served := ServedFrom(es, 0, q);
    hide WellPlaced, Passed, Mapped.At, ServedFrom, Covered, Effect, RestStays;
    EffectRest(es, q, m, buf, delta, served, m', buf');
    forall i, a: nat | 0 <= i < |es| && es[i].At(a) && q.Window(a)
      ensures a in m && a in m' && 0 <= a + delta < |buf| == |buf'|
      ensures m'[a] == (if q.command.Write? && Passed(es, i, q) then buf[a + delta] else m[a])
      ensures buf'[a + delta] == (if q.command.Read? && Passed(es, i, q) then m[a] else buf[a + delta])
    {
      ServedMeans(es, q, i, a);
      CoveredAt(es, i, a);
      EffectAt(q.command, m, buf, delta, served, m', buf', a);
    }
  }

  /** Whatever has done what a fresh access means has this status and moved these bytes. */
  lemma AccessMeans(es: seq<Mapped>, q: Query, m: Memory, buf: seq<u8>, delta: int)
    requires WellPlaced(es) && forall a: nat :: a in m <==> Covered(es, a)
    requires forall a: nat :: q.Window(a) ==> 0 <= a + delta < |buf|
    ensures q.response.Incomplete? ==> forall p :: Done(es, 0, q, m, buf, delta, p) ==>
      && p.status == StatusOf(es, q) && p.count == |Moved(es, q)|
      && BytesMoved(es, q, m, buf, delta, p.mem, p.buf) && RestStays(es, q, m, buf, delta, p.mem, p.buf)
  {
    hide WellPlaced, Effect, StatusOf, ServedFrom, StatusFrom, BytesMoved, RestStays, Covered, Moved;
    if q.response.Incomplete? {
      StatusMeans(es, q);
      MovedMeans(es, q);
      forall p | Done(es, 0, q, m, buf, delta, p)
        ensures p.status == StatusOf(es, q) && p.count == |Moved(es, q)|
        ensures BytesMoved(es, q, m, buf, delta, p.mem, p.buf) && RestStays(es, q, m, buf, delta, p.mem, p.buf)
      {
        EffectMeans(es, q, m, buf, delta, p.mem, p.buf);
      }
    }
  }

  lemma InWindow(es: seq<Mapped>, q: Query)
    requires WellPlaced(es)
    ensures forall a :: a in ServedFrom(es, 0, q) ==> q.Window(a)
  {
  }

  lemma CoveredAt(es: seq<Mapped>, i: nat, a: int)
    requires WellPlaced(es) && i < |es| && es[i].At(a)
    ensures Covered(es, a)
  {
  }

  lemma EffectAt(cmd: Command, m: Memory, buf: seq<u8>, delta: int, s: set<nat>, m': Memory, buf': seq<u8>, a: nat)
    requires Effect(cmd, m, buf, delta, s, m', buf') && a in m && 0 <= a + delta < |buf|
    ensures a in m' && |buf'| == |buf|
    ensures m'[a] == (if cmd.Write? && a in s then buf[a + delta] else m[a])
    ensures buf'[a + delta] == (if cmd.Read? && a in s then m[a] else buf[a + delta])
  {
    assert a + delta - delta == a;
  }

  lemma EffectRest(es: seq<Mapped>, q: Query, m: Memory, buf: seq<u8>, delta: int, served: set<nat>,
                   m': Memory, buf': seq<u8>)
    requires WellPlaced(es) && forall a: nat :: a in m <==> Covered(es, a)
    requires forall a :: a in served ==> q.Window(a) && a in m
    requires Effect(q.command, m, buf, delta, served, m', buf')
    ensures RestStays(es, q, m, buf, delta, m', buf')
  {
    hide WellPlaced, Covered;
    assert m'.Keys == m.Keys;
  }
}
