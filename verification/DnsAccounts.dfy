/** Every query is accounted for: it is reported as timed out at shutdown unless it had a reply. */
module DnsAccounts {
  import opened TimingWheel
  import opened DnsModel

  /** The reply flag is what it was filled with, until a response sets it. */
  ghost predicate FlagExact(d: Dns, x: Timed<Keyed<QueryKey, QueryInfo>>) {
    x.item.val.hasReply <==> x.item.val.fill || x.serial in d.answered
  }

  /** Each query ever made is in the table exactly once, live or expired, with an exact flag. */
  ghost predicate QueriesKept(d: Dns) {
    && d.queries.slots > 0 && d.addrs.slots > 0 && d.names.slots > 0
    && (forall n: nat :: Total(d.queries, SerialIs(n)) == if n < d.queries.puts then 1 else 0)
    && (forall x | x in d.queries.live :: FlagExact(d, x))
    && (forall x | x in d.queries.expired :: FlagExact(d, x))
    && forall n | n in d.answered :: n < d.queries.puts
  }

  lemma {:induction false} NonNegative<T>(s: seq<Timed<T>>, n: nat)
    ensures Sum(s, SerialIs(n)) >= 0
  {
    if s == [] {
    } else {
      NonNegative(s[1..], n);
    }
  }

  lemma {:induction false} SerialIn<T>(s: seq<Timed<T>>, i: nat)
    requires i < |s|
    ensures Sum(s, SerialIs(s[i].serial)) >= 1
    decreases i
  {
    NonNegative(s[1..], s[i].serial);
    if i > 0 {
      SerialIn(s[1..], i - 1);
    }
  }

  lemma {:induction false} TwoOfASerial<T>(s: seq<Timed<T>>, i: nat, j: nat)
    requires i < j < |s| && s[i].serial == s[j].serial
    ensures Sum(s, SerialIs(s[i].serial)) >= 2
    decreases i
  {
    if i == 0 {
      SerialIn(s[1..], j - 1);
    } else {
      TwoOfASerial(s[1..], i - 1, j - 1);
    }
  }

  lemma {:induction false} UpdateKeepsSerials(s: seq<Timed<Keyed<QueryKey, QueryInfo>>>, i: nat,
                                              q: Keyed<QueryKey, QueryInfo>, n: nat)
    requires i < |s|
    ensures Sum(s[i := s[i].(item := q)], SerialIs(n)) == Sum(s, SerialIs(n))
  {
    var s' := s[i := s[i].(item := q)];
    if i == 0 {
      assert s'[1..] == s[1..];
    } else {
      UpdateKeepsSerials(s[1..], i - 1, q, n);
      assert s'[1..] == s[1..][i - 1 := s[i].(item := q)];
    }
  }

  lemma ProgressKeeps(d: Dns, sec: int)
    requires QueriesKept(d)
    ensures QueriesKept(Progress(d, sec))
  {
    if d.lastTs > 0 && sec > d.lastTs {
      var k := sec - d.lastTs;
      var d' := Progress(d, sec);
      forall n: nat
        ensures Total(d'.queries, SerialIs(n)) == if n < d.queries.puts then 1 else 0
      {
        SweepKeepsTotal(d.queries, d.queries.tick, k, SerialIs(n));
      }
      SweepConserves(d.queries, d.queries.tick, k);
      forall x | x in d'.queries.live || x in d'.queries.expired
        ensures FlagExact(d', x)
      {
        assert x in multiset(d.queries.live) + multiset(d.queries.expired);
        assert FlagExact(d, x);
      }
    }
  }

  lemma NewQueryKeeps(d: Dns, p: DnsPacket)
    requires QueriesKept(d) && p.qNames != [] && QUERY_TTL < d.queries.slots
    ensures QueriesKept(d.(queries := Put(d.queries, QUERY_TTL, Keyed(p.Key(), NewQuery(p)))))
  {
    var w := Put(d.queries, QUERY_TTL, Keyed(p.Key(), NewQuery(p)));
    assert w.live[1..] == d.queries.live;
    forall n: nat
      ensures Total(w, SerialIs(n)) == if n < w.puts then 1 else 0
    {
      assert Total(d.queries, SerialIs(n)) == if n < d.queries.puts then 1 else 0;
    }
  }

  /** A response sets the flag of one query, and of no other. */
  lemma MatchKeeps(d: Dns, i: nat, p: DnsPacket)
    requires QueriesKept(d) && i < |d.queries.live|
    ensures QueriesKept(Match(d, i, p))
  {
    var d' := Match(d, i, p);
    var x := d.queries.live[i];
    var q := d'.queries.live[i].item;
    assert x in d.queries.live;
    forall n: nat
      ensures Total(d'.queries, SerialIs(n)) == if n < d.queries.puts then 1 else 0
    {
      UpdateKeepsSerials(d.queries.live, i, q, n);
      assert Total(d.queries, SerialIs(n)) == if n < d.queries.puts then 1 else 0;
    }
    assert Total(d.queries, SerialIs(x.serial)) <= 1;
    SerialIn(d.queries.live, i);
    NonNegative(d.queries.expired, x.serial);
    assert x.serial < d.queries.puts;
    forall j | 0 <= j < |d.queries.live|
      ensures FlagExact(d', d'.queries.live[j])
    {
      assert d.queries.live[j] in d.queries.live;
      if j < i && d.queries.live[j].serial == x.serial {
        TwoOfASerial(d.queries.live, j, i);
      } else if i < j && d.queries.live[j].serial == x.serial {
        TwoOfASerial(d.queries.live, i, j);
      }
    }
    forall j | 0 <= j < |d.queries.expired|
      ensures FlagExact(d', d'.queries.expired[j])
    {
      assert d.queries.expired[j] in d.queries.expired;
      SerialIn(d.queries.expired, j);
    }
  }

  lemma OnlyQueries(d: Dns, d': Dns)
    requires QueriesKept(d) && d'.queries == d.queries && d'.answered == d.answered
    requires d'.addrs.slots > 0 && d'.names.slots > 0
    ensures QueriesKept(d')
  {
    forall x | x in d.queries.live || x in d.queries.expired
      ensures FlagExact(d', x)
    {
      assert FlagExact(d, x);
    }
  }

  lemma ReceiveKeeps(d: Dns, p: DnsPacket)
    requires QueriesKept(d) && WellFormed(p) && d.queries.slots > QUERY_TTL
    ensures QueriesKept(Receive(d, p))
  {
    hide QueriesKept;
    ProgressKeeps(d, p.sec);
    var d1 := Progress(d, p.sec);
    var i := FindKey(d1.queries.live, p.Key());
    if p.query {
      if i == |d1.queries.live| {
        NewQueryKeeps(d1, p);
      }
    } else if i < |d1.queries.live| {
      MatchKeeps(d1, i, p);
      OnlyQueries(Match(d1, i, p), Receive(d, p));
    } else {
      OnlyQueries(d1, Receive(d, p));
    }
  }

  lemma {:induction false} RunKeepsQueries(d: Dns, s: seq<DnsPacket>)
    requires QueriesKept(d) && d.queries.slots > QUERY_TTL && forall p | p in s :: WellFormed(p)
    ensures QueriesKept(ReceiveAll(d, s))
    decreases |s|
  {
    if s == [] {
    } else {
      ReceiveKeeps(d, s[0]);
      RunKeepsQueries(Receive(d, s[0]), s[1..]);
    }
  }

  lemma EmptyKept()
    ensures QueriesKept(EMPTY) && EMPTY.queries.slots > QUERY_TTL
  {
    assert EMPTY.queries.live == EMPTY.queries.expired == [];
  }

  /** After every run, on any clock, each query ever made is in the table once, with an exact flag. */
  lemma RunKeepsAll(s: seq<DnsPacket>)
    requires forall p | p in s :: WellFormed(p)
    ensures QueriesKept(ReceiveAll(EMPTY, s))
  {
    EmptyKept();
    RunKeepsQueries(EMPTY, s);
  }

  /** The timeout messages of those queries of `s` that no response was seen for. */
  function Unanswered(s: seq<Timed<Keyed<QueryKey, QueryInfo>>>, answered: set<nat>): seq<DnsMessage> {
    if s == [] then []
    else
      (if s[0].item.val.fill || s[0].serial in answered then [] else [TimeoutMessage(s[0].item.val)])
      + Unanswered(s[1..], answered)
  }

  lemma {:induction false} FlushEmpties(d: Dns)
    ensures Flush(d).queries == d.queries.(expired := [])
    decreases |d.queries.expired|
  {
    if d.queries.expired == [] {
    } else {
      FlushEmpties(FlushOne(d));
    }
  }

  /** One round of the flush, if the reply flag is exact. */
  lemma FlushOneReports(d: Dns)
    requires d.queries.expired != [] && FlagExact(d, d.queries.expired[0])
    ensures var rest := d.queries.expired[1..];
            && FlushOne(d).queries.expired == rest && FlushOne(d).answered == d.answered
            && d.log + Unanswered(d.queries.expired, d.answered) == FlushOne(d).log + Unanswered(rest, d.answered)
  {
    var x, b := d.queries.expired[0], Unanswered(d.queries.expired[1..], d.answered);
    hide TimeoutMessage;
    if !x.item.val.hasReply {
      assert d.log + [TimeoutMessage(x.item.val)] + b == d.log + ([TimeoutMessage(x.item.val)] + b);
    }
  }

  lemma {:induction false} FlushReports(d: Dns)
    requires forall x | x in d.queries.expired :: FlagExact(d, x)
    ensures Flush(d).log == d.log + Unanswered(d.queries.expired, d.answered)
    decreases |d.queries.expired|
  {
    if d.queries.expired == [] {
    } else {
      assert d.queries.expired[0] in d.queries.expired;
      FlushOneReports(d);
      forall y | y in FlushOne(d).queries.expired
        ensures FlagExact(FlushOne(d), y)
      {
        assert y in d.queries.expired && FlagExact(d, y);
      }
      hide FlushOne, Unanswered, FlagExact;
      FlushReports(FlushOne(d));
    }
  }

  /** What `Close` does to a table that has kept its queries. */
  lemma CloseVisitsAll(d: Dns)
    requires QueriesKept(d)
    ensures var visited := Purge(d.queries).expired;
            && Close(d).log == d.log + Unanswered(visited, d.answered)
            && Close(d).queries.live == Close(d).queries.expired == []
            && multiset(visited) == multiset(All(d.queries))
            && forall n: nat :: Sum(visited, SerialIs(n)) == if n < d.queries.puts then 1 else 0
  {
    var d1 := d.(queries := Purge(d.queries));
    PurgeExpiresAll(d.queries);
    forall x | x in d1.queries.expired
      ensures FlagExact(d1, x)
    {
      assert x in multiset(All(d.queries));
      assert FlagExact(d, x);
    }
    FlushEmpties(d1);
    FlushReports(d1);
    forall n: nat
      ensures Sum(d1.queries.expired, SerialIs(n)) == if n < d.queries.puts then 1 else 0
    {
      SweepKeepsTotal(d.queries, 0, d.queries.slots, SerialIs(n));
      assert Total(d.queries, SerialIs(n)) == if n < d.queries.puts then 1 else 0;
    }
  }

  /** Shutdown visits every query ever made exactly once, expired or not, and reports a timeout for
      exactly those that had no response -- among those whose reply flag started out false. */
  lemma CloseReportsUnanswered(s: seq<DnsPacket>)
    requires forall p | p in s :: WellFormed(p)
    ensures var d := ReceiveAll(EMPTY, s);
            var visited := Purge(d.queries).expired;
            && Close(d).log == d.log + Unanswered(visited, d.answered)
            && Close(d).queries.live == Close(d).queries.expired == []
            && multiset(visited) == multiset(All(d.queries))
            && forall n: nat :: Sum(visited, SerialIs(n)) == if n < d.queries.puts then 1 else 0
  {
    hide ReceiveAll, QueriesKept, Close, Purge, Unanswered;
    RunKeepsAll(s);
    CloseVisitsAll(ReceiveAll(EMPTY, s));
  }

  /** The timeout messages that should be: one for each query without a response. */
  function WithoutResponse(s: seq<Timed<Keyed<QueryKey, QueryInfo>>>, answered: set<nat>): seq<DnsMessage> {
    if s == [] then []
    else
      (if s[0].serial in answered then [] else [TimeoutMessage(s[0].item.val)]) + WithoutResponse(s[1..], answered)
  }

  lemma {:induction false} FilledFlagsHide(s: seq<Timed<Keyed<QueryKey, QueryInfo>>>, answered: set<nat>)
    ensures |Unanswered(s, answered)| <= |WithoutResponse(s, answered)|
    ensures Unanswered(s, answered) == WithoutResponse(s, answered)
            <==> forall x | x in s :: x.serial in answered || !x.item.val.fill
  {
    if s == [] {
    } else {
      FilledFlagsHide(s[1..], answered);
      assert s == [s[0]] + s[1..];
      var x, a, b := s[0], Unanswered(s[1..], answered), WithoutResponse(s[1..], answered);
      assert x in s && forall y :: y in s <==> y == x || y in s[1..];
      var m := [TimeoutMessage(x.item.val)];
      if x.serial in answered {
        assert [] + a == a && [] + b == b;
      } else if x.item.val.fill {
        assert [] + a == a && |m + b| == 1 + |b|;
      } else {
        assert (m + a)[1..] == a && (m + b)[1..] == b;
      }
    }
  }

  lemma SamePrefix<T>(p: seq<T>, a: seq<T>, b: seq<T>)
    ensures p + a == p + b <==> a == b
  {
    if p + a == p + b {
      assert (p + a)[|p|..] == a && (p + b)[|p|..] == b;
    }
  }

  /** Shutdown reports every query that had no response, if and only if none of those had its reply
      flag, which the constructor leaves unset, filled with true. */
  lemma TimeoutsCompleteUnlessFilled(s: seq<DnsPacket>)
    requires forall p | p in s :: WellFormed(p)
    ensures var d := ReceiveAll(EMPTY, s);
            Close(d).log == d.log + WithoutResponse(Purge(d.queries).expired, d.answered)
            <==> forall x | x in All(d.queries) :: x.serial in d.answered || !x.item.val.fill
  {
    hide ReceiveAll, Close, Purge, Unanswered, WithoutResponse;
    CloseReportsUnanswered(s);
    var d := ReceiveAll(EMPTY, s);
    var visited := Purge(d.queries).expired;
    FilledFlagsHide(visited, d.answered);
    assert forall x :: x in visited <==> x in multiset(visited);
    assert forall x :: x in All(d.queries) <==> x in multiset(All(d.queries));
    SamePrefix(d.log, Unanswered(visited, d.answered), WithoutResponse(visited, d.answered));
  }

  /** Such a query: asked once, never answered, and not reported. */
  lemma FilledQueryUnreported(p: DnsPacket)
    requires WellFormed(p) && p.query && p.fill
    ensures Close(ReceiveAll(EMPTY, [p])).log == []
  {
    hide Close, Purge, QueriesKept;
    CloseReportsUnanswered([p]);
    assert [p][1..] == [];
    var d := ReceiveAll(EMPTY, [p]);
    assert All(d.queries) == [Timed(Keyed(p.Key(), NewQuery(p)), QUERY_TTL, 0)];
    var visited := Purge(d.queries).expired;
    assert |multiset(visited)| == 1 && visited[0] in multiset(visited);
    assert Unanswered(visited, d.answered) == [];
  }
}
