/** Runs of transactions of any processors through a register bank, against the sparse byte memory. */
module BankRuns {
  import opened BankSpec
  import opened ByteOrder
  import opened RegisterBanks
  import opened Registers
  import opened SparseMemory
  import opened Wrappers

  /** The effect that a bank promises is what the memory does with the request of its own processor. */
  lemma EffectPerforms(es: seq<Mapped>, shared: set<nat>, m: Memory, rq: Request, m': Memory, buf: seq<u8>)
    requires WellPlaced(es) && rq.Valid()
    requires Effect(rq.query.command, m, rq.data, 0 - rq.query.address, Served(es, rq.query), m', buf)
    ensures m' == Perform(es, shared, rq.query.info.cpu, m, rq)
    ensures forall a :: a in Served(es, rq.query) ==> a in m
    ensures buf == if rq.query.command.Read? then Answer(es, m, rq) else rq.data
  {
    hide WellPlaced, Served, StoredAt, LoadedAt;
    assert SeenBy(es, shared, rq.query.info.cpu, rq.query) == Served(es, rq.query);
  }

  /** A processor that sees shared addresses as the acting one does, and nothing else of the request, sees what the
  memory says. */
  lemma OtherPerforms(es: seq<Mapped>, shared: set<nat>, rq: Request, c: int,
                      mine: Memory, mine': Memory, theirs: Memory, theirs': Memory)
    requires WellPlaced(es) && rq.Valid() && c != rq.query.info.cpu && theirs'.Keys == theirs.Keys
    requires mine' == Perform(es, shared, rq.query.info.cpu, mine, rq)
    requires forall a :: a in theirs' ==>
      && a in theirs && a in mine && a in mine'
      && if a in shared then theirs'[a] == mine'[a] && theirs[a] == mine[a] else theirs'[a] == theirs[a]
    ensures theirs' == Perform(es, shared, c, theirs, rq)
  {
    hide WellPlaced, Served;
    assert forall a :: a in theirs <==> a in theirs.Keys;
    assert forall a :: a in theirs' <==> a in theirs'.Keys;
  }

  /** Carry out one request of a processor: every processor sees what the memory says. */
  method Access(bank: RegisterBank, rq: Request) returns (data: seq<u8>, count: nat, status: Response)
    requires bank.Valid() && rq.Valid()
    modifies bank.Regs()
    ensures bank.Valid() && bank.Map() == old(bank.Map()) && bank.Shared() == old(bank.Shared())
    ensures count == |Served(bank.Map(), rq.query)| && status == StatusFrom(bank.Map(), 0, rq.query)
    ensures forall a :: a in Served(bank.Map(), rq.query) ==> a in old(bank.Contents(rq.query.info.cpu))
    ensures forall c: int ::
      bank.Contents(c) == Perform(bank.Map(), bank.Shared(), c, old(bank.Contents(c)), rq)
    ensures data == if rq.query.command.Read?
      then Answer(bank.Map(), old(bank.Contents(rq.query.info.cpu)), rq) else rq.data
  {
    hide WellPlaced, Effect, ServedFrom, StatusFrom, Perform, RegisterBank.Contents, RegisterBank.Shared, RegisterBank.Rests;
    var q := rq.query;
    ghost var m := bank.Contents(q.info.cpu);
    var buffer := new u8[|rq.data|](i requires 0 <= i < |rq.data| => rq.data[i]);
    assert buffer[..] == rq.data;
    var tx := new Payload(q.command, q.address, buffer, q.length, 0, None, 0);
    tx.response := q.response;
    bank.NoRegisterChanged(q.info.cpu);
    count := bank.Receive(tx, q.info);
    data, status := buffer[..], tx.response;
    bank.SeenByOther(q.info.cpu, q.info.cpu + 1);
    EffectPerforms(bank.Map(), bank.Shared(), m, rq, bank.Contents(q.info.cpu), data);
    forall c: int
      ensures bank.Contents(c) == Perform(bank.Map(), bank.Shared(), c, old(bank.Contents(c)), rq)
    {
      if c != q.info.cpu {
        bank.SeenByOther(q.info.cpu, c);
        OtherPerforms(bank.Map(), bank.Shared(), rq, c, m, bank.Contents(q.info.cpu),
                      old(bank.Contents(c)), bank.Contents(c));
      }
    }
  }

  lemma RunSteps(es: seq<Mapped>, shared: set<nat>, start: imap<int, Memory>, rqs: seq<Request>)
    requires WellPlaced(es) && forall k :: 0 <= k < |rqs| ==> rqs[k].Valid()
    requires forall c: int :: c in start
    ensures rqs == [] ==> forall c: int :: Run(es, shared, c, start[c], rqs) == start[c]
    ensures rqs != [] ==> forall c: int ::
      Run(es, shared, c, start[c], rqs) ==
      Perform(es, shared, c, Run(es, shared, c, start[c], rqs[..|rqs| - 1]), rqs[|rqs| - 1])
  {
    hide WellPlaced, Perform;
  }

  /** The answer to request `i` is the one of the memory that its processor sees after the requests before it. */
  ghost predicate Answers(es: seq<Mapped>, shared: set<nat>, start: imap<int, Memory>, rqs: seq<Request>, i: nat,
                          data: seq<u8>)
    requires WellPlaced(es) && i < |rqs| && forall k :: 0 <= k < |rqs| ==> rqs[k].Valid()
    requires forall c: int :: c in start
  {
    var c := rqs[i].query.info.cpu;
    var m := Run(es, shared, c, start[c], rqs[..i]);
    && (forall a :: a in Served(es, rqs[i].query) ==> a in m)
    && data == if rqs[i].query.command.Read? then Answer(es, m, rqs[i]) else rqs[i].data
  }

  lemma AnswersPrefix(es: seq<Mapped>, shared: set<nat>, start: imap<int, Memory>, rqs: seq<Request>, n: nat, i: nat,
                      data: seq<u8>)
    requires WellPlaced(es) && i < n <= |rqs| && forall k :: 0 <= k < |rqs| ==> rqs[k].Valid()
    requires forall c: int :: c in start
    ensures Answers(es, shared, start, rqs[..n], i, data) <==> Answers(es, shared, start, rqs, i, data)
  {
    assert rqs[..n][..i] == rqs[..i];
  }

  /** What every processor sees. */
  ghost function Views(bank: RegisterBank): (r: imap<int, Memory>)
    requires bank.Valid()
    reads bank, bank.Regs()
    ensures forall c: int :: c in r && r[c] == bank.Contents(c)
  {
    imap c: int | true :: bank.Contents(c)
  }

  /** Carry out a run of requests of any processors: for every processor the bank behaves as the sparse memory. */
  method Replay(bank: RegisterBank, rqs: seq<Request>) returns (answers: seq<seq<u8>>)
    requires bank.Valid() && forall i :: 0 <= i < |rqs| ==> rqs[i].Valid()
    modifies bank.Regs()
    ensures bank.Valid() && bank.Map() == old(bank.Map()) && bank.Shared() == old(bank.Shared())
    ensures forall c: int ::
      bank.Contents(c) == Run(bank.Map(), bank.Shared(), c, old(bank.Contents(c)), rqs)
    ensures |answers| == |rqs| && forall i :: 0 <= i < |rqs| ==>
      Answers(bank.Map(), bank.Shared(), old(Views(bank)), rqs, i, answers[i])
    decreases |rqs|
  {
    ghost var es, shared, start := bank.Map(), bank.Shared(), Views(bank);
    RunSteps(es, shared, start, rqs);
    assert WellPlaced(es);
    hide *;
    answers := [];
    if rqs != [] {
      var n := |rqs| - 1;
      answers := Replay(bank, rqs[..n]);
      var data, _, _ := Access(bank, rqs[n]);
      forall i | 0 <= i < n ensures Answers(es, shared, start, rqs, i, answers[i]) {
        AnswersPrefix(es, shared, start, rqs, n, i, answers[i]);
      }
      assert Answers(es, shared, start, rqs, n, data) by {
        AnswersNow(es, shared, start, rqs, n, data);
      }
      answers := answers + [data];
    }
  }

  lemma AnswersNow(es: seq<Mapped>, shared: set<nat>, start: imap<int, Memory>, rqs: seq<Request>, i: nat, data: seq<u8>)
    requires WellPlaced(es) && i < |rqs| && forall k :: 0 <= k < |rqs| ==> rqs[k].Valid()
    requires forall c: int :: c in start
    requires var m := Run(es, shared, rqs[i].query.info.cpu, start[rqs[i].query.info.cpu], rqs[..i]);
      && (forall a :: a in Served(es, rqs[i].query) ==> a in m)
      && data == if rqs[i].query.command.Read? then Answer(es, m, rqs[i]) else rqs[i].data
    ensures Answers(es, shared, start, rqs, i, data)
  {
  }
}
