/** What becomes of one query, its response and what the response told, in plain numbers. */
module DnsLifetimes {
  import opened Basics
  import opened DnsModel
  import opened DnsLeases

  /** A query and a response to something, on a clock that does not go back. */
  predicate Exchange(q: DnsPacket, p: DnsPacket) {
    && WellFormed(q) && WellFormed(p) && q.query && !p.query
    && 0 < q.sec <= p.sec
  }

  /** The response is the query's if it has its flow hash and its transaction id, in time. */
  predicate IsResponse(p: DnsPacket, q: DnsPacket) {
    p.hv == q.hv && p.txId == q.txId && p.sec - q.sec <= 120
  }

  lemma PairMonotone(q: DnsPacket, p: DnsPacket)
    requires Exchange(q, p)
    ensures Monotone([q, p], 0)
  {
    assert [q, p][1..] == [p] && [p][1..] == [];
    assert Within([p], 1, 0, q.sec);
  }

  lemma MachineReports(q: DnsPacket, p: DnsPacket)
    requires Exchange(q, p)
    ensures var log := RefStep(RefStep(START, q), p).log;
            var sent, seen := q.sec * 1_000_000 + q.usec, p.sec * 1_000_000 + p.usec;
            log == if IsResponse(p, q) then
                     [DnsTx(sent, q.src, q.dst, q.qNames[0], Success, Some(seen - sent))]
                     + RefLogs(p, q.sec, |p.answers|)
                   else [DnsTx(seen, p.dst, p.src, if p.qNames == [] then "" else p.qNames[0], Miss, None)]
  {
    hide RefLogs, RefAddrs, RefNames;
  }

  lemma ModuleReports(q: DnsPacket, p: DnsPacket)
    requires Exchange(q, p)
    ensures ReceiveAll(EMPTY, [q, p]).log == RefStep(RefStep(START, q), p).log
  {
    hide ReceiveAll, RefRun, Receive, RefStep, Within;
    PairMonotone(q, p);
    MatchesTimestampedMaps([q, p], [], 0);
    TwoPackets(q, p);
  }

  /** The message about a response: a success of the query, with the time between them, exactly if it is
      the query's, and otherwise a miss. */
  lemma ResponseMatches(q: DnsPacket, p: DnsPacket)
    requires Exchange(q, p)
    ensures var log := ReceiveAll(EMPTY, [q, p]).log;
            var sent, seen := q.sec * 1_000_000 + q.usec, p.sec * 1_000_000 + p.usec;
            if IsResponse(p, q) then
              && |log| == 1 + |p.answers|
              && log[0] == DnsTx(sent, q.src, q.dst, q.qNames[0], Success, Some(seen - sent))
            else
              log == [DnsTx(seen, p.dst, p.src, if p.qNames == [] then "" else p.qNames[0], Miss, None)]
  {
    hide ReceiveAll, RefStep, WellFormed;
    ModuleReports(q, p);
    MachineReports(q, p);
  }

  /** The messages about its answers, in order, all of the second of the query. */
  lemma AnswersReported(q: DnsPacket, p: DnsPacket, i: nat)
    requires Exchange(q, p) && IsResponse(p, q) && i < |p.answers|
    ensures var log := ReceiveAll(EMPTY, [q, p]).log;
            var a := p.answers[i];
            i + 1 < |log| && log[i + 1] == DnsLog(q.sec, p.dst, p.src, a.name, a.typeName, a.text)
  {
    hide ReceiveAll, RefStep, WellFormed;
    ModuleReports(q, p);
    MachineReports(q, p);
  }

  /** The simple machine after a query, its response with one answer, and another packet. */
  lemma MachineAfter(q: DnsPacket, p: DnsPacket, a: Answer, x: DnsPacket)
    requires Exchange(q, p) && IsResponse(p, q) && p.answers == [a] && x.answers == []
    ensures var r := RefStep(RefStep(RefStep(START, q), p), x);
            && r.addrs == (if a.rtype == 1 || a.rtype == 28 then map[a.data := Stamp(a.name, p.sec)] else map[])
            && r.names == if a.rtype == 5 then [Alias(a.text, a.name, p.sec)] else []
  {
    hide WellFormed, RefLogs;
    var r2 := RefStep(RefStep(START, q), p);
    assert RefNames([], [a], 0, p.sec) == [] && FreshNames([], p.sec) == [];
    assert RefAddrs(map[], [a], 0, p.sec) == map[];
    assert RefNames(r2.names, [], 0, x.sec) == r2.names && RefAddrs(r2.addrs, [], 0, x.sec) == r2.addrs;
  }

  lemma TripleAgrees(q: DnsPacket, p: DnsPacket, x: DnsPacket)
    requires Exchange(q, p) && WellFormed(x) && p.sec <= x.sec
    ensures WellFormed(q) && WellFormed(p)
    ensures Agrees(ReceiveAll(EMPTY, [q, p, x]), RefStep(RefStep(RefStep(START, q), p), x))
    ensures ReceiveAll(EMPTY, [q, p, x]).lastTs == x.sec
  {
    hide Mirrors, Lists, RefStep, Receive, WellFormed, ReceiveAll, RefRun;
    StartAgrees();
    StepAgrees(EMPTY, START, q);
    var d, r := Receive(EMPTY, q), RefStep(START, q);
    StepAgrees(d, r, p);
    StepAgrees(Receive(d, p), RefStep(r, p), x);
    ThreePackets(q, p, x);
  }

  lemma {:induction false} OneAliasLeads(c: Alias, n: nat)
    ensures RefChase([c], c.qname, n) == c.qname
    decreases n
  {
    if n == 0 {
    } else if c.cname == c.qname {
      OneAliasLeads(c, n - 1);
    } else {
      assert FindAlias([c], c.qname) == 1;
    }
  }

  lemma AliasLeadsWhileYoung(c: Alias, now: int, n: nat)
    requires n > 0
    ensures RefChase(FreshNames([c], now), c.cname, n) == if now - c.at <= 600 then c.qname else c.cname
    ensures RefChase(FreshNames([], now), c.cname, n) == c.cname
  {
    var none: seq<Alias> := [c][1..];
    assert none == [] && FreshNames(none, now) == [];
    OneAliasLeads(c, n - 1);
  }

  lemma NoAliasStays(name: string, now: int, n: nat)
    ensures RefChase(FreshNames([], now), name, n) == name
  {
  }

  /** An answer of type 1 or 28 names an address, and one of type 5 leads from its text to its name, from
      the second of the response through 600 seconds after it, and no longer. */
  lemma AnswerLifetime(q: DnsPacket, p: DnsPacket, a: Answer, x: DnsPacket, n: nat)
    requires Exchange(q, p) && IsResponse(p, q) && p.answers == [a]
    requires WellFormed(x) && x.answers == [] && p.sec <= x.sec && n > 0
    ensures WellFormed(q) && WellFormed(p)
    ensures Resolve(ReceiveAll(EMPTY, [q, p, x]), a.data, n)
            == if (a.rtype == 1 || a.rtype == 28) && x.sec - p.sec <= 600 then a.name else ""
    ensures Chase(ReceiveAll(EMPTY, [q, p, x]).names, a.text, n)
            == if a.rtype == 5 && x.sec - p.sec <= 600 then a.name else a.text
  {
    hide Mirrors, WellFormed, ReceiveAll, RefStep, RefChase, FreshNames, Resolve, Chase;
    var d, r := ReceiveAll(EMPTY, [q, p, x]), RefStep(RefStep(RefStep(START, q), p), x);
    TripleAgrees(q, p, x);
    MachineAfter(q, p, a, x);
    ResolveAgrees(d, r, a.data, n);
    ChaseAgrees(d.names, d.lastTs, FreshNames(r.names, d.lastTs), a.text, n);
    AliasLeadsWhileYoung(Alias(a.text, a.name, p.sec), x.sec, n);
    NoAliasStays(a.name, x.sec, n);
  }

  /** Answers of other types, and what is older, leave nothing in either cache. */
  lemma NothingElseFiled(q: DnsPacket, p: DnsPacket, a: Answer, x: DnsPacket)
    requires Exchange(q, p) && IsResponse(p, q) && p.answers == [a]
    requires WellFormed(x) && x.answers == [] && p.sec <= x.sec
    ensures WellFormed(q) && WellFormed(p)
    ensures ReceiveAll(EMPTY, [q, p, x]).addrs.live == []
            <==> a.rtype !in [1, 28] || x.sec - p.sec > 600
    ensures ReceiveAll(EMPTY, [q, p, x]).names.live == []
            <==> a.rtype != 5 || x.sec - p.sec > 600
  {
    var d, r := ReceiveAll(EMPTY, [q, p, x]), RefStep(RefStep(RefStep(START, q), p), x);
    TripleAgrees(q, p, x);
    MachineAfter(q, p, a, x);
    hide WellFormed, ReceiveAll, RefStep;
    var c := Alias(a.text, a.name, p.sec);
    var none: seq<Alias> := [c][1..];
    assert none == [] && FreshNames(none, x.sec) == [];
    LookupAgrees(d.addrs, d.lastTs, 600, r.addrs, NAME_OF, a.data);
    if d.addrs.live != [] {
      assert d.addrs.live[0] in d.addrs.live && Shows(d.addrs, d.lastTs, 600, r.addrs, NAME_OF, d.addrs.live[0]);
      assert d.addrs.tick <= d.addrs.live[0].due;
    }
  }
}
