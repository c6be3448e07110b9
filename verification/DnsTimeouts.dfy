/** Which queries shutdown reports as timed out, told from the packets alone. */
module DnsTimeouts {
  import opened Basics
  import opened TimingWheel
  import opened DnsModel
  import opened DnsLeases

  type Query = Timed<Keyed<QueryKey, QueryInfo>>

  // ------------------------------------------------------------- what should be

  /** The packet answers a query of this key recorded at second `at`. */
  predicate Answers(p: DnsPacket, key: QueryKey, at: int) {
    !p.query && Id(p) == key && p.sec - at <= 120
  }

  predicate Responded(s: seq<DnsPacket>, key: QueryKey, at: int) {
    s != [] && (Answers(s[0], key, at) || Responded(s[1..], key, at))
  }

  /** The queries of `s` that the simple machine records and that no packet answers within 120 seconds. */
  function Unresponded(r: Ref, s: seq<DnsPacket>): seq<DnsPacket>
    decreases |s|
  {
    if s == [] then []
    else
      var p := s[0];
      var recorded := p.query && !Fresh(r.queries, Id(p), p.sec, 120);
      (if recorded && !Responded(s[1..], Id(p), p.sec) then [p] else []) + Unresponded(RefStep(r, p), s[1..])
  }

  function TimeoutOf(p: DnsPacket): DnsMessage {
    DnsTx(Micros(p), p.src, p.dst, FirstName(p), Timeout, None)
  }

  /** One timeout message for each query, except, if `hidden`, for those whose reply flag, which
      the constructor leaves unset, was filled with true. */
  function Reports(s: seq<DnsPacket>, hidden: bool): seq<DnsMessage> {
    if s == [] then []
    else (if hidden && s[0].fill then [] else [TimeoutOf(s[0])]) + Reports(s[1..], hidden)
  }

  // ----------------------------------------------------------- what is still to come

  /** What becomes of a query in the table if the packets `s` are still to come: the second it was
      recorded at is its deadline less 120, on a clock that is `ahead` of the wheel. */
  function Fate(x: Query, ahead: int, s: seq<DnsPacket>): seq<DnsMessage> {
    if x.item.val.hasReply || Responded(s, x.item.key, x.due + ahead - QUERY_TTL) then []
    else [TimeoutMessage(x.item.val)]
  }

  function Fates(q: seq<Query>, ahead: int, s: seq<DnsPacket>): seq<DnsMessage> {
    if q == [] then [] else Fate(q[0], ahead, s) + Fates(q[1..], ahead, s)
  }

  function Outstanding(d: Dns, s: seq<DnsPacket>): seq<DnsMessage> {
    Fates(All(d.queries), d.lastTs - d.queries.tick, s)
  }

  lemma FatesCons(x: Query, q: seq<Query>, ahead: int, s: seq<DnsPacket>)
    ensures Fates([x] + q, ahead, s) == Fate(x, ahead, s) + Fates(q, ahead, s)
  {
    assert ([x] + q)[1..] == q;
  }

  lemma {:induction false} FatesConcat(a: seq<Query>, b: seq<Query>, ahead: int, s: seq<DnsPacket>)
    ensures Fates(a + b, ahead, s) == Fates(a, ahead, s) + Fates(b, ahead, s)
  {
    if a == [] {
      assert a + b == b;
    } else {
      hide *;
      var x, rest := a[0], a[1..];
      assert a == [x] + rest && a + b == [x] + (rest + b);
      FatesCons(x, rest, ahead, s);
      FatesCons(x, rest + b, ahead, s);
      FatesConcat(rest, b, ahead, s);
    }
  }

  lemma {:induction false} FatesSame(a: seq<Query>, b: seq<Query>, ahead: int, s: seq<DnsPacket>, t: seq<DnsPacket>)
    requires |a| == |b| && forall i | 0 <= i < |a| :: Fate(a[i], ahead, s) == Fate(b[i], ahead, t)
    ensures Fates(a, ahead, s) == Fates(b, ahead, t)
  {
    if a == [] {
    } else {
      assert forall i | 0 <= i < |a| - 1 :: a[1..][i] == a[i + 1] && b[1..][i] == b[i + 1];
      FatesSame(a[1..], b[1..], ahead, s, t);
    }
  }

  lemma CancelOne<T>(m: multiset<T>, n: multiset<T>, x: T)
    requires multiset{x} + m == multiset{x} + n
    ensures m == n
  {
    assert m == multiset{x} + m - multiset{x};
  }

  lemma SplitAt<T>(b: seq<T>, j: nat)
    requires j < |b|
    ensures b == b[..j] + ([b[j]] + b[j + 1..])
    ensures multiset(b) == multiset{b[j]} + multiset(b[..j] + b[j + 1..])
  {
    var u, v := b[..j], b[j + 1..];
    assert b == u + ([b[j]] + v);
    assert multiset(u + ([b[j]] + v)) == multiset{b[j]} + multiset(u + v);
  }

  lemma TakeOut<T>(a: seq<T>, b: seq<T>) returns (u: seq<T>, v: seq<T>)
    requires a != [] && multiset(a) == multiset(b)
    ensures b == u + ([a[0]] + v) && multiset(a[1..]) == multiset(u + v)
  {
    assert a[0] in multiset(b);
    var j :| 0 <= j < |b| && b[j] == a[0];
    u, v := b[..j], b[j + 1..];
    SplitAt(a, 0);
    SplitAt(b, j);
    assert a[..0] + a[0 + 1..] == a[1..];
    CancelOne(multiset(a[1..]), multiset(u + v), a[0]);
  }

  /** In whatever order the queries are visited, the same messages come of it. */
  lemma {:induction false} FatesAnyOrder(a: seq<Query>, b: seq<Query>, ahead: int, s: seq<DnsPacket>)
    requires multiset(a) == multiset(b)
    ensures multiset(Fates(a, ahead, s)) == multiset(Fates(b, ahead, s))
    decreases |a|
  {
    hide *;
    if a == [] {
      assert |multiset(b)| == 0;
    } else {
      var x, rest := a[0], a[1..];
      var u, v := TakeOut(a, b);
      assert a == [x] + rest;
      FatesAnyOrder(rest, u + v, ahead, s);
      FatesCons(x, rest, ahead, s);
      FatesCons(x, v, ahead, s);
      FatesConcat(u, [x] + v, ahead, s);
      FatesConcat(u, v, ahead, s);
    }
  }

  lemma NoReports()
    ensures Reports([], true) == []
  {
  }

  // --------------------------------------------------------------- step by step

  /** What has expired is past its deadline, and the table is empty before the first packet. */
  ghost predicate Tracked(d: Dns) {
    && (forall x | x in d.queries.expired :: x.due < d.queries.tick)
    && (d.lastTs == 0 ==> d.queries.expired == [])
  }

  lemma NoFates(q: seq<Query>, ahead: int, ahead': int, s: seq<DnsPacket>)
    requires q == []
    ensures Fates(q, ahead, s) == Fates(q, ahead', s) == []
  {
  }

  lemma TimeBalances(w: Wheel<Keyed<QueryKey, QueryInfo>>, now: int, k: nat, s: seq<DnsPacket>)
    requires Window(w) && forall x | x in w.expired :: x.due < w.tick
    ensures var w' := Prog(w, k);
            && (forall x | x in w'.expired :: x.due < w'.tick)
            && multiset(Fates(All(w'), now + k - w'.tick, s)) == multiset(Fates(All(w), now - w.tick, s))
  {
    hide Fates;
    ProgExact(w, k);
    SweepConserves(w, w.tick, k);
    var w' := Prog(w, k);
    assert multiset(All(w')) == multiset(All(w));
    FatesAnyOrder(All(w'), All(w), now - w.tick, s);
    forall x | x in w'.expired
      ensures x.due < w'.tick
    {
      BatchesMember(w.live, w.tick, k, x);
    }
  }

  lemma ProgressBalances(d: Dns, r: Ref, sec: int, s: seq<DnsPacket>)
    requires Agrees(d, r) && Tracked(d) && d.lastTs <= sec && 0 < sec
    ensures var d' := Progress(d, sec);
            Tracked(d') && multiset(Outstanding(d', s)) == multiset(Outstanding(d, s))
  {
    hide Fates, Lists, Shows, Fresh, Prog;
    var d' := Progress(d, sec);
    if d.lastTs == 0 {
      if d.queries.live != [] {
        KeyInMap(d.queries, 0, QUERY_TTL, r.queries, ASKED, 0);
        assert false;
      }
      assert All(d.queries) == All(d'.queries) == [];
      NoFates(All(d.queries), d.lastTs - d.queries.tick, d'.lastTs - d'.queries.tick, s);
    } else if d.lastTs < sec {
      TimeBalances(d.queries, d.lastTs, sec - d.lastTs, s);
    }
  }

  /** A packet that answers none of the open queries changes the fate of none. */
  lemma PassesBy(d: Dns, p: DnsPacket, s: seq<DnsPacket>)
    requires forall x | x in All(d.queries) ::
               !Answers(p, x.item.key, x.due + d.lastTs - d.queries.tick - QUERY_TTL)
    ensures Outstanding(d, [p] + s) == Outstanding(d, s)
  {
    var q, ahead := All(d.queries), d.lastTs - d.queries.tick;
    assert ([p] + s)[1..] == s;
    forall i | 0 <= i < |q|
      ensures Fate(q[i], ahead, [p] + s) == Fate(q[i], ahead, s)
    {
      assert q[i] in q;
    }
    hide Fate;
    FatesSame(q, q, ahead, [p] + s, s);
  }

  /** A response finds the one open query that it answers, if there is one. */
  lemma OnlyAnswered(d: Dns, r: Ref, p: DnsPacket, j: nat)
    requires Agrees(d, r) && Tracked(d) && !p.query && d.lastTs == p.sec && j < |All(d.queries)|
    ensures var x := All(d.queries)[j];
            Answers(p, x.item.key, x.due + d.lastTs - d.queries.tick - QUERY_TTL)
            <==> j == FindKey(d.queries.live, p.Key()) < |d.queries.live|
  {
    var live, i := d.queries.live, FindKey(d.queries.live, p.Key());
    if j < |live| {
      assert All(d.queries)[j] == live[j];
      assert i < |live| && i != j ==> live[i].item.key != live[j].item.key;
    } else {
      assert All(d.queries)[j] == d.queries.expired[j - |live|];
      assert d.queries.expired[j - |live|] in d.queries.expired;
    }
  }

  /** A query that has just been recorded will be reported unless it is answered, or was filled. */
  lemma NewFate(d: Dns, p: DnsPacket, s: seq<DnsPacket>)
    requires WellFormed(p) && p.query && d.lastTs == p.sec && d.queries.slots > QUERY_TTL
    ensures var d' := d.(queries := Put(d.queries, QUERY_TTL, Keyed(p.Key(), NewQuery(p))));
            Outstanding(d', s) == Reports(if Responded(s, p.Key(), p.sec) then [] else [p], true) + Outstanding(d, s)
  {
    var w := Put(d.queries, QUERY_TTL, Keyed(p.Key(), NewQuery(p)));
    assert All(w) == [w.live[0]] + All(d.queries) && All(w)[1..] == All(d.queries);
    var none: seq<DnsPacket> := [p][1..];
    assert none == [] && Reports(none, true) == [];
  }

  lemma QueryBalances(d: Dns, r: Ref, p: DnsPacket, s: seq<DnsPacket>)
    requires Agrees(d, r) && Tracked(d) && WellFormed(p) && p.query && d.lastTs == p.sec > 0
    ensures var i := FindKey(d.queries.live, p.Key());
            var d' := if i < |d.queries.live| then d
                      else d.(queries := Put(d.queries, QUERY_TTL, Keyed(p.Key(), NewQuery(p))));
            var recorded := !Fresh(r.queries, p.Key(), p.sec, QUERY_TTL);
            && Tracked(d')
            && Outstanding(d', s)
            == Reports(if recorded && !Responded(s, p.Key(), p.sec) then [p] else [], true) + Outstanding(d, [p] + s)
  {
    LookupAgrees(d.queries, d.lastTs, QUERY_TTL, r.queries, ASKED, p.Key());
    PassesBy(d, p, s);
    NoReports();
    assert QUERY_TTL < d.queries.slots;
    hide Mirrors, Lists, Fresh, Outstanding, Reports;
    if !Has(d.queries, p.Key()) {
      NewFate(d, p, s);
    }
  }

  lemma MatchBalances(d: Dns, r: Ref, p: DnsPacket, s: seq<DnsPacket>)
    requires Agrees(d, r) && Tracked(d) && !p.query && d.lastTs == p.sec
    requires FindKey(d.queries.live, p.Key()) < |d.queries.live|
    ensures var d' := Match(d, FindKey(d.queries.live, p.Key()), p);
            Tracked(d') && Outstanding(d', s) == Outstanding(d, [p] + s)
  {
    var d' := Match(d, FindKey(d.queries.live, p.Key()), p);
    var a, b := All(d.queries), All(d'.queries);
    forall j | 0 <= j < |a|
      ensures Fate(a[j], d.lastTs - d.queries.tick, [p] + s) == Fate(b[j], d.lastTs - d.queries.tick, s)
    {
      OnlyAnswered(d, r, p, j);
      assert ([p] + s)[1..] == s;
    }
    FatesSame(a, b, d.lastTs - d.queries.tick, [p] + s, s);
  }

  lemma MissBalances(d: Dns, r: Ref, p: DnsPacket, s: seq<DnsPacket>)
    requires Agrees(d, r) && Tracked(d) && !p.query && d.lastTs == p.sec
    requires FindKey(d.queries.live, p.Key()) == |d.queries.live|
    ensures Outstanding(d, s) == Outstanding(d, [p] + s)
  {
    forall x | x in All(d.queries)
      ensures !Answers(p, x.item.key, x.due + d.lastTs - d.queries.tick - QUERY_TTL)
    {
      var j :| 0 <= j < |All(d.queries)| && All(d.queries)[j] == x;
      OnlyAnswered(d, r, p, j);
    }
    PassesBy(d, p, s);
  }

  lemma SameQueries(d: Dns, d': Dns, s: seq<DnsPacket>)
    requires d'.queries == d.queries && d'.lastTs == d.lastTs
    ensures Outstanding(d', s) == Outstanding(d, s) && (Tracked(d) <==> Tracked(d'))
  {
  }

  /** Each packet leaves the account balanced: what is outstanding after it is what was, and what it adds. */
  lemma StepBalances(d: Dns, r: Ref, p: DnsPacket, s: seq<DnsPacket>)
    requires Agrees(d, r) && Tracked(d) && WellFormed(p) && d.lastTs <= p.sec && 0 < p.sec
    ensures var recorded := p.query && !Fresh(r.queries, p.Key(), p.sec, QUERY_TTL);
            var d' := Receive(d, p);
            && Tracked(d')
            && multiset(Outstanding(d', s))
            == multiset(Reports(if recorded && !Responded(s, p.Key(), p.sec) then [p] else [], true))
               + multiset(Outstanding(d, [p] + s))
  {
    hide Mirrors, Lists, Outstanding, Fresh, AddAnswers, Reports, Tracked;
    ProgressAgrees(d, r, p.sec);
    ProgressBalances(d, r, p.sec, [p] + s);
    var d1 := Progress(d, p.sec);
    var i := FindKey(d1.queries.live, p.Key());
    NoReports();
    if p.query {
      QueryBalances(d1, r, p, s);
    } else if i < |d1.queries.live| {
      MatchBalances(d1, r, p, s);
      SameQueries(Match(d1, i, p), Receive(d, p), s);
    } else {
      MissBalances(d1, r, p, s);
      SameQueries(d1, Receive(d, p), s);
    }
  }

  lemma ReportsCons(p: DnsPacket, s: seq<DnsPacket>, hidden: bool)
    ensures Reports([p] + s, hidden) == Reports([p], hidden) + Reports(s, hidden)
  {
    var none: seq<DnsPacket> := [p][1..];
    assert ([p] + s)[1..] == s && none == [] && Reports(none, hidden) == [];
  }

  lemma {:induction false} RunBalances(d: Dns, r: Ref, s: seq<DnsPacket>)
    requires Agrees(d, r) && Tracked(d) && Monotone(s, d.lastTs) && forall p | p in s :: WellFormed(p)
    ensures multiset(Outstanding(ReceiveAll(d, s), []))
         == multiset(Reports(Unresponded(r, s), true)) + multiset(Outstanding(d, s))
    decreases |s|
  {
    hide Mirrors, Lists, Outstanding, Receive, RefStep, Tracked, Fresh, Responded, Reports;
    if s == [] {
      NoReports();
    } else {
      var p, rest := s[0], s[1..];
      assert s == [p] + rest;
      StepBalances(d, r, p, rest);
      StepAgrees(d, r, p);
      RunBalances(Receive(d, p), RefStep(r, p), rest);
      var later := Unresponded(RefStep(r, p), rest);
      if p.query && !Fresh(r.queries, p.Key(), p.sec, QUERY_TTL) && !Responded(rest, p.Key(), p.sec) {
        assert Unresponded(r, s) == [p] + later;
        ReportsCons(p, later, true);
      } else {
        assert Unresponded(r, s) == later;
        NoReports();
      }
    }
  }

  // -------------------------------------------------------------------- shutdown

  lemma {:induction false} FlushTellsFates(d: Dns, ahead: int)
    ensures Flush(d).log == d.log + Fates(d.queries.expired, ahead, [])
    decreases |d.queries.expired|
  {
    if d.queries.expired == [] {
    } else {
      var x, rest := d.queries.expired[0], d.queries.expired[1..];
      FlushTellsFates(FlushOne(d), ahead);
      assert FlushOne(d).log == d.log + Fate(x, ahead, []);
      assert d.queries.expired == [x] + rest;
      FatesCons(x, rest, ahead, []);
      hide Fate, Fates, FlushOne;
      var a, b := Fate(x, ahead, []), Fates(rest, ahead, []);
      assert d.log + a + b == d.log + (a + b);
    }
  }

  lemma CloseTellsFates(d: Dns)
    requires d.queries.slots > 0
    ensures d.log <= Close(d).log
    ensures multiset(Close(d).log[|d.log|..]) == multiset(Outstanding(d, []))
  {
    hide Purge, Fates, Flush;
    var ahead, w := d.lastTs - d.queries.tick, Purge(d.queries);
    PurgeExpiresAll(d.queries);
    FlushTellsFates(d.(queries := w), ahead);
    FatesAnyOrder(w.expired, All(d.queries), ahead, []);
  }

  /** On a clock that does not go back, shutdown reports each query that was recorded and not answered
      within 120 seconds, as often as there were such queries, and nothing else -- except those whose
      reply flag happened to be filled with true. */
  lemma TimeoutsAreUnresponded(s: seq<DnsPacket>)
    requires Monotone(s, 0) && forall p | p in s :: WellFormed(p)
    ensures var d := ReceiveAll(EMPTY, s);
            && d.log <= Close(d).log
            && multiset(Close(d).log[|d.log|..]) == multiset(Reports(Unresponded(START, s), true))
  {
    hide ReceiveAll, Unresponded, Reports, Close, Mirrors, Lists;
    StartAgrees();
    RunBalances(EMPTY, START, s);
    CloseTellsFates(ReceiveAll(EMPTY, s));
    NoFates(All(EMPTY.queries), 0, 0, s);
    assert All(EMPTY.queries) == [];
  }

  lemma {:induction false} FilledNotReported(s: seq<DnsPacket>)
    ensures |Reports(s, true)| <= |Reports(s, false)|
    ensures Reports(s, true) == Reports(s, false) <==> |Reports(s, true)| == |Reports(s, false)|
    ensures Reports(s, true) == Reports(s, false) <==> forall p | p in s :: !p.fill
  {
    if s == [] {
    } else {
      FilledNotReported(s[1..]);
      assert s == [s[0]] + s[1..];
      assert s[0] in s && forall p :: p in s <==> p == s[0] || p in s[1..];
      assert !s[0].fill ==> Reports(s, true)[1..] == Reports(s[1..], true);
      assert Reports(s, false)[1..] == Reports(s[1..], false);
    }
  }

  /** So shutdown reports every such query, if and only if none of their flags was filled with true. */
  lemma EveryTimeoutIff(s: seq<DnsPacket>)
    requires Monotone(s, 0) && forall p | p in s :: WellFormed(p)
    ensures var d, due := ReceiveAll(EMPTY, s), Unresponded(START, s);
            && d.log <= Close(d).log
            && (multiset(Close(d).log[|d.log|..]) == multiset(Reports(due, false)) <==> forall p | p in due :: !p.fill)
  {
    hide ReceiveAll, Unresponded, Reports, Close;
    TimeoutsAreUnresponded(s);
    var due := Unresponded(START, s);
    FilledNotReported(due);
    assert |multiset(Reports(due, true))| == |Reports(due, true)|;
    assert |multiset(Reports(due, false))| == |Reports(due, false)|;
  }
}
