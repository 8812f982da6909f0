/** A bank of registers is a sparse byte memory, over any sequence of transactions. */
module SparseMemory {
  import opened ByteOrder
  import opened Layout
  import opened Registers
  import opened BankSpec

  /** A transaction with the bytes of its buffer. */
  datatype Request = Request(query: Query, data: seq<u8>) {
    predicate Valid() {
      |data| == query.length > 0
    }
  }

  /** Every register in the window grants the access and none ends it early. */
  ghost predicate Permitted(es: seq<Mapped>, q: Query)
    requires WellPlaced(es)
  {
    q.response.Incomplete? && forall i :: 0 <= i < |es| && Touches(es[i], q) ==> Admits(es[i], q) && !es[i].Natural()
  }

  ghost function Served(es: seq<Mapped>, q: Query): (s: set<nat>)
    requires WellPlaced(es)
    ensures forall a :: a in s ==> q.Window(a)
  {
    ServedFrom(es, 0, q)
  }

  /** A permitted access serves exactly the covered bytes of its window and tells so. */
  lemma PermittedServesCovered(es: seq<Mapped>, q: Query)
    requires WellPlaced(es) && Permitted(es, q)
    ensures Served(es, q) == set a: nat | q.address <= a < q.address + q.length && Covered(es, a)
    ensures StatusFrom(es, 0, q) == if Served(es, q) == {} then Incomplete else Ok
  {
    forall a: nat | q.address <= a < q.address + q.length && Covered(es, a) ensures ServedAt(es, 0, q, a) {
      var i :| 0 <= i < |es| && es[i].At(a);
      assert q.Window(a);
      assert Serves(es, i, q);
    }
  }

  /** What is written by a request that a register refuses lies above the refusing register. */
  lemma RefusedServesAbove(es: seq<Mapped>, q: Query, i: nat, a: nat)
    requires WellPlaced(es) && i < |es| && Touches(es[i], q) && !Admits(es[i], q)
    ensures a in Served(es, q) ==> exists j :: i < j < |es| && es[j].At(a)
    ensures a in Served(es, q) ==> a >= es[i].base
  {
    if a in Served(es, q) {
      var j :| 0 <= j < |es| && Serves(es, j, q) && es[j].At(a);
      assert !(j <= i);
    }
  }

  /** The served bytes of a request whose change processor `c` sees: all if it made the request itself, otherwise
  those at the addresses that all processors share. */
  ghost function SeenBy(es: seq<Mapped>, shared: set<nat>, c: int, q: Query): (s: set<nat>)
    requires WellPlaced(es)
    ensures s <= Served(es, q)
  {
    set a | a in Served(es, q) && (q.info.cpu == c || a in shared)
  }

  /** The memory that processor `c` sees after a request of any processor. */
  ghost function Perform(es: seq<Mapped>, shared: set<nat>, c: int, m: Memory, rq: Request): (r: Memory)
    requires WellPlaced(es) && rq.Valid()
    ensures r.Keys == m.Keys
  {
    if rq.query.command.Write? then StoredAt(m, SeenBy(es, shared, c, rq.query), rq.data, 0 - rq.query.address) else m
  }

  /** The bytes a read request ends with, from the memory its processor sees. */
  ghost function Answer(es: seq<Mapped>, m: Memory, rq: Request): (data: seq<u8>)
    requires WellPlaced(es) && rq.Valid() && forall a :: a in Served(es, rq.query) ==> a in m
    ensures |data| == |rq.data|
  {
    LoadedAt(rq.data, m, Served(es, rq.query), 0 - rq.query.address)
  }

  /** The memory that processor `c` sees after a run of requests of any processors. */
  ghost function Run(es: seq<Mapped>, shared: set<nat>, c: int, m: Memory, rqs: seq<Request>): (r: Memory)
    requires WellPlaced(es) && forall i :: 0 <= i < |rqs| ==> rqs[i].Valid()
    ensures r.Keys == m.Keys
  {
    if rqs == [] then m
    else Perform(es, shared, c, Run(es, shared, c, m, rqs[..|rqs| - 1]), rqs[|rqs| - 1])
  }

  /** Request `k` of a run writes address `a` as processor `c` sees it: it is a request of this processor, or the
  address is shared. */
  ghost predicate Writes(es: seq<Mapped>, shared: set<nat>, c: int, rqs: seq<Request>, k: int, a: nat)
    requires WellPlaced(es) && 0 <= k < |rqs|
  {
    && rqs[k].query.command.Write? && a in Served(es, rqs[k].query)
    && (rqs[k].query.info.cpu == c || a in shared)
  }

  ghost function WrittenByte(es: seq<Mapped>, rq: Request, a: nat): u8
    requires WellPlaced(es) && rq.Valid() && a in Served(es, rq.query)
  {
    rq.data[a - rq.query.address]
  }

  /** Request `k` is the last one of the run that writes address `a` for processor `c`. */
  ghost predicate LastWriter(es: seq<Mapped>, shared: set<nat>, c: int, rqs: seq<Request>, k: int, a: nat)
    requires WellPlaced(es)
  {
    && 0 <= k < |rqs| && Writes(es, shared, c, rqs, k, a)
    && forall l :: k < l < |rqs| ==> !Writes(es, shared, c, rqs, l, a)
  }

  /** Byte `v` is the last one written to `a` for processor `c`, or the initial one if there was none. */
  ghost predicate LastWritten(es: seq<Mapped>, shared: set<nat>, c: int, m: Memory, rqs: seq<Request>, a: nat, v: u8)
    requires WellPlaced(es) && a in m && forall i :: 0 <= i < |rqs| ==> rqs[i].Valid()
  {
    || (exists k :: LastWriter(es, shared, c, rqs, k, a) && v == WrittenByte(es, rqs[k], a))
    || ((forall k :: 0 <= k < |rqs| ==> !Writes(es, shared, c, rqs, k, a)) && v == m[a])
  }

  lemma {:induction false} RunHoldsLastWritten(es: seq<Mapped>, shared: set<nat>, c: int, m: Memory, rqs: seq<Request>,
                                               a: nat)
    requires WellPlaced(es) && a in m && forall i :: 0 <= i < |rqs| ==> rqs[i].Valid()
    ensures LastWritten(es, shared, c, m, rqs, a, Run(es, shared, c, m, rqs)[a])
  {
    hide WellPlaced, Served;
    if rqs != [] {
      var n := |rqs| - 1;
      var init := rqs[..n];
      RunHoldsLastWritten(es, shared, c, m, init, a);
      assert forall k :: 0 <= k < n ==> (Writes(es, shared, c, init, k, a) <==> Writes(es, shared, c, rqs, k, a));
      if Writes(es, shared, c, rqs, n, a) {
        assert LastWriter(es, shared, c, rqs, n, a);
      } else if k :| LastWriter(es, shared, c, init, k, a) && Run(es, shared, c, m, init)[a] == WrittenByte(es, init[k], a) {
        assert LastWriter(es, shared, c, rqs, k, a);
      }
    }
  }

  /** After any run of requests of any processors, a permitted read of a processor yields, for each covered address
  of its window, the last byte that was written there by this processor or, at a shared address, by any. The other
  bytes of its buffer stay. */
  lemma ReadYieldsLastWritten(es: seq<Mapped>, shared: set<nat>, m: Memory, rqs: seq<Request>, rq: Request, p: nat)
    requires WellPlaced(es) && rq.Valid() && forall i :: 0 <= i < |rqs| ==> rqs[i].Valid()
    requires forall a: nat :: a in m <==> Covered(es, a)
    requires Permitted(es, rq.query) && p < |rq.data|
    ensures forall a :: a in Served(es, rq.query) ==> a in m
    ensures var a, c := rq.query.address + p, rq.query.info.cpu;
      var data := Answer(es, Run(es, shared, c, m, rqs), rq);
      if a in m then LastWritten(es, shared, c, m, rqs, a, data[p]) else data[p] == rq.data[p]
  {
    hide WellPlaced, Served, Covered, Permitted, LastWritten, Run;
    PermittedServesCovered(es, rq.query);
    var a := rq.query.address + p;
    if a in m {
      RunHoldsLastWritten(es, shared, rq.query.info.cpu, m, rqs, a);
    }
  }

  /** Permitted requests are served alike by banks that cover the same addresses. */
  lemma SameService(es: seq<Mapped>, es': seq<Mapped>, q: Query)
    requires WellPlaced(es) && WellPlaced(es') && forall a: int :: Covered(es, a) <==> Covered(es', a)
    requires Permitted(es, q) && Permitted(es', q)
    ensures Served(es, q) == Served(es', q) && StatusFrom(es, 0, q) == StatusFrom(es', 0, q)
  {
    hide WellPlaced, Served, Covered, Permitted, StatusFrom;
    PermittedServesCovered(es, q);
    PermittedServesCovered(es', q);
  }

  /** Two banks with the same covered addresses, the same shared ones and the same bytes go through a run of permitted
  requests alike: the same bytes, answers, counts and status, no matter how their bytes are divided into registers
  and cells. */
  lemma {:induction false} LayoutDoesNotMatter(es: seq<Mapped>, es': seq<Mapped>, shared: set<nat>, c: int, m: Memory,
                                               rqs: seq<Request>)
    requires WellPlaced(es) && WellPlaced(es') && forall a: int :: Covered(es, a) <==> Covered(es', a)
    requires forall i :: 0 <= i < |rqs| ==>
      rqs[i].Valid() && Permitted(es, rqs[i].query) && Permitted(es', rqs[i].query)
    ensures Run(es, shared, c, m, rqs) == Run(es', shared, c, m, rqs)
    ensures forall i :: 0 <= i < |rqs| ==>
      && Served(es, rqs[i].query) == Served(es', rqs[i].query)
      && StatusFrom(es, 0, rqs[i].query) == StatusFrom(es', 0, rqs[i].query)
  {
    hide WellPlaced, Covered, Permitted, Served, StatusFrom;
    if rqs != [] {
      var n := |rqs| - 1;
      LayoutDoesNotMatter(es, es', shared, c, m, rqs[..n]);
      SameService(es, es', rqs[n].query);
    }
  }

  /** After any such run a permitted read is answered alike. */
  lemma LayoutIsInvisible(es: seq<Mapped>, es': seq<Mapped>, shared: set<nat>, m: Memory, rqs: seq<Request>, rq: Request)
    requires WellPlaced(es) && WellPlaced(es') && forall a: int :: Covered(es, a) <==> Covered(es', a)
    requires forall a: nat :: a in m <==> Covered(es, a)
    requires rq.Valid() && Permitted(es, rq.query) && Permitted(es', rq.query)
    requires forall i :: 0 <= i < |rqs| ==>
      rqs[i].Valid() && Permitted(es, rqs[i].query) && Permitted(es', rqs[i].query)
    ensures forall a :: a in Served(es, rq.query) + Served(es', rq.query) ==> a in m
    ensures var c := rq.query.info.cpu;
      Answer(es, Run(es, shared, c, m, rqs), rq) == Answer(es', Run(es', shared, c, m, rqs), rq)
  {
    hide WellPlaced, Covered, Permitted, Served, StatusFrom, Run;
    PermittedServesCovered(es, rq.query);
    SameService(es, es', rq.query);
    LayoutDoesNotMatter(es, es', shared, rq.query.info.cpu, m, rqs);
  }
}
