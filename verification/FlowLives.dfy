/** The life of a flow: created once, alive under one key, logged once with its exact totals. */
module FlowLives {
  import opened Basics
  import opened TimingWheel
  import opened FlowModel
  import opened FlowLaws

  // ------------------------------------------------------- counters and history

  function CountDir(h: seq<Packet>, d: Dir): nat {
    if h == [] then 0 else CountDir(h[..|h| - 1], d) + if h[|h| - 1].dir == d then 1 else 0
  }

  function BytesDir(h: seq<Packet>, d: Dir): nat {
    if h == [] then 0 else BytesDir(h[..|h| - 1], d) + if h[|h| - 1].dir == d then h[|h| - 1].len else 0
  }

  /** The counters of a flow are the totals of its packets. */
  ghost predicate Tallied(f: FlowInfo) {
    && f.lPkt == CountDir(f.hist, L2R) && f.lSize == BytesDir(f.hist, L2R)
    && f.rPkt == CountDir(f.hist, R2L) && f.rSize == BytesDir(f.hist, R2L)
    && forall i | 0 <= i < |f.hist| :: f.hist[i].hv == f.hv && f.hist[i].ssn == f.ssn
  }

  /** The two ends of the flow are those of packet `p`, by its direction. */
  ghost predicate EndsOf(f: FlowInfo, p: Packet) {
    && f.hv == p.hv && f.ssn == p.ssn && f.hex == p.hex && f.proto == p.proto
    && f.initDir == p.dir && f.created == p.sec
    && match p.dir
       case L2R =>
         && f.lAddr == p.srcAddr && f.lPort == p.srcPort && f.lName == f.names.0
         && f.rAddr == p.dstAddr && f.rPort == p.dstPort && f.rName == f.names.1
       case R2L =>
         && f.rAddr == p.srcAddr && f.rPort == p.srcPort && f.rName == f.names.0
         && f.lAddr == p.dstAddr && f.lPort == p.dstPort && f.lName == f.names.1
  }

  /** ... and its ends and creation time are those of the first of them. */
  ghost predicate Faithful(f: FlowInfo) {
    && Tallied(f) && f.hist != [] && EndsOf(f, f.hist[0]) && f.updated == f.hist[|f.hist| - 1].sec
  }

  // ----------------------------------------------------- what holds of every flow

  /** Every flow there ever was has property `P`: live, waiting, logged or lost. */
  ghost predicate AllAre(t: Tracker, P: FlowInfo -> bool) {
    && (forall x | x in t.wheel.live :: P(x.item))
    && (forall x | x in t.wheel.expired :: P(x.item))
    && (forall f | f in t.logged :: P(f))
    && (forall f | f in t.lost :: P(f))
  }

  /** A property that neither a new lease nor another packet takes away. */
  ghost predicate Lasting(P: FlowInfo -> bool) {
    && (forall f: FlowInfo, now: int | P(f) :: P(Refresh(f, now)))
    && (forall f: FlowInfo, p: Packet | P(f) && f.hv == p.hv && f.ssn == p.ssn :: P(UpdateFlow(f, p)))
  }

  /** The flow that this arrival would create has the property. */
  ghost predicate Starts(P: FlowInfo -> bool, a: Arrival) {
    P(UpdateFlow(NewFlow(a.p, a.src, a.dst), a.p))
  }

  lemma ProgMembers(w: Wheel<FlowInfo>, k: nat, x: Timed<FlowInfo>)
    requires w.slots > 0
    ensures x in Prog(w, k).live || x in Prog(w, k).expired <==> x in w.live || x in w.expired
  {
    SweepConserves(w, w.tick, k);
    var v := Prog(w, k);
    assert x in multiset(v.live) + multiset(v.expired) <==> x in multiset(w.live) + multiset(w.expired);
  }

  lemma {:induction false} DrainKeepsAll(t: Tracker, now: int, P: FlowInfo -> bool)
    requires AllAre(t, P) && Lasting(P)
    ensures AllAre(Drain(t, now), P)
    decreases |t.wheel.expired|
  {
    if t.wheel.expired == [] {
    } else {
      var f := t.wheel.expired[0].item;
      assert t.wheel.expired[0] in t.wheel.expired && P(f);
      assert P(Refresh(f, now));
      DrainKeepsAll(DrainOne(t, now), now, P);
    }
  }

  lemma AdvanceKeepsAll(t: Tracker, sec: int, P: FlowInfo -> bool)
    requires t.wheel.slots > 0 && AllAre(t, P) && Lasting(P)
    ensures AllAre(Advance(t, sec), P)
  {
    if t.lastTs != 0 && t.lastTs < sec {
      var t1 := t.(lastTs := sec, wheel := Prog(t.wheel, sec - t.lastTs));
      forall x | x in t1.wheel.live || x in t1.wheel.expired
        ensures P(x.item)
      {
        ProgMembers(t.wheel, sec - t.lastTs, x);
      }
      DrainKeepsAll(t1, sec, P);
    }
  }

  lemma AccountKeepsAll(t: Tracker, i: nat, p: Packet, P: FlowInfo -> bool)
    requires i < |t.wheel.live| && P(UpdateFlow(t.wheel.live[i].item, p))
    requires forall j | 0 <= j < |t.wheel.live| && j != i :: P(t.wheel.live[j].item)
    requires forall x | x in t.wheel.expired :: P(x.item)
    requires (forall f | f in t.logged :: P(f)) && forall f | f in t.lost :: P(f)
    ensures AllAre(Account(t, i, p), P)
  {
    hide UpdateFlow;
  }

  lemma RecordKeepsAll(t: Tracker, a: Arrival, P: FlowInfo -> bool)
    requires t.wheel.slots > FLOW_TIMEOUT && AllAre(t, P) && Lasting(P) && Starts(P, a)
    ensures AllAre(Record(t, a.p, a.src, a.dst), P)
  {
    hide UpdateFlow, NewFlow, Refresh;
    var i := FindFlow(t.wheel.live, a.p.hv, a.p.ssn);
    if i < |t.wheel.live| {
      assert t.wheel.live[i] in t.wheel.live;
      AccountKeepsAll(t, i, a.p, P);
    } else {
      var t' := Create(t, a.p, a.src, a.dst);
      assert forall j | 0 < j < |t'.wheel.live| :: t'.wheel.live[j] == t.wheel.live[j - 1];
      AccountKeepsAll(t', 0, a.p, P);
    }
  }

  /** A lasting property that all flows start with holds of every flow of every run, on any clock. */
  lemma {:induction false} RunKeepsAll(t: Tracker, s: seq<Arrival>, P: FlowInfo -> bool)
    requires t.wheel.slots > FLOW_TIMEOUT && AllAre(t, P) && Lasting(P) && forall a | a in s && a.ip :: Starts(P, a)
    ensures AllAre(ReceiveAll(t, s), P)
    decreases |s|
  {
    if s == [] {
    } else {
      AdvanceKeepsAll(t, s[0].p.sec, P);
      if s[0].ip {
        RecordKeepsAll(Advance(t, s[0].p.sec), s[0], P);
      }
      RunKeepsAll(Receive(t, s[0]), s[1..], P);
    }
  }

  lemma RunEstablishes(s: seq<Arrival>, P: FlowInfo -> bool)
    requires Lasting(P) && forall a | a in s && a.ip :: Starts(P, a)
    ensures AllAre(ReceiveAll(EMPTY, s), P)
  {
    assert EMPTY.wheel.live == EMPTY.wheel.expired == [];
    RunKeepsAll(EMPTY, s, P);
  }

  // ------------------------------------------------------------- a flow's own packets

  lemma OneMorePacket(h: seq<Packet>, p: Packet, d: Dir)
    ensures CountDir(h + [p], d) == CountDir(h, d) + if p.dir == d then 1 else 0
    ensures BytesDir(h + [p], d) == BytesDir(h, d) + if p.dir == d then p.len else 0
  {
    assert (h + [p])[..|h|] == h;
  }

  lemma UpdateTallies(f: FlowInfo, p: Packet)
    requires Tallied(f) && f.hv == p.hv && f.ssn == p.ssn
    ensures Tallied(UpdateFlow(f, p))
    ensures Faithful(f) ==> Faithful(UpdateFlow(f, p))
  {
    hide CountDir, BytesDir;
    OneMorePacket(f.hist, p, L2R);
    OneMorePacket(f.hist, p, R2L);
  }

  ghost const FAITHFUL: FlowInfo -> bool := (f: FlowInfo) => Faithful(f)

  ghost predicate AllFaithful(t: Tracker) {
    AllAre(t, FAITHFUL)
  }

  lemma FaithfulLasts()
    ensures Lasting(FAITHFUL)
    ensures forall a: Arrival :: Starts(FAITHFUL, a)
  {
    forall f: FlowInfo, p: Packet | Faithful(f) && f.hv == p.hv && f.ssn == p.ssn
      ensures Faithful(UpdateFlow(f, p))
    {
      UpdateTallies(f, p);
    }
    forall a: Arrival
      ensures Starts(FAITHFUL, a)
    {
      UpdateTallies(NewFlow(a.p, a.src, a.dst), a.p);
    }
  }

  /** After every stream, every flow logged, live or lost carries exactly the totals of its own packets. */
  lemma RunFaithful(s: seq<Arrival>)
    ensures AllFaithful(ReceiveAll(EMPTY, s))
  {
    hide ReceiveAll, Faithful, Starts, Lasting;
    FaithfulLasts();
    RunEstablishes(s, FAITHFUL);
  }

  /** The flow's names are what the ends of its first packet resolved to as it arrived. */
  function NamedIn(s: seq<Arrival>): FlowInfo -> bool {
    (f: FlowInfo) => f.hist != [] && Arrival(f.hist[0], true, f.names.0, f.names.1) in s
  }

  lemma NamesLast(s: seq<Arrival>)
    ensures Lasting(NamedIn(s))
  {
    forall f: FlowInfo, p: Packet | NamedIn(s)(f)
      ensures NamedIn(s)(UpdateFlow(f, p))
    {
      assert UpdateFlow(f, p).hist[0] == f.hist[0] && UpdateFlow(f, p).names == f.names;
    }
  }

  lemma NamesStart(s: seq<Arrival>, a: Arrival)
    requires a in s && a.ip
    ensures Starts(NamedIn(s), a)
  {
    var f := UpdateFlow(NewFlow(a.p, a.src, a.dst), a.p);
    assert f.hist == [a.p] && f.names == (a.src, a.dst);
    assert a == Arrival(a.p, true, a.src, a.dst);
  }

  /** After every stream, that is so of every flow. */
  lemma RunNamed(s: seq<Arrival>)
    ensures AllAre(ReceiveAll(EMPTY, s), NamedIn(s))
  {
    hide ReceiveAll, Lasting, Starts, NamedIn;
    NamesLast(s);
    forall a | a in s && a.ip
      ensures Starts(NamedIn(s), a)
    {
      NamesStart(s, a);
    }
    RunEstablishes(s, NamedIn(s));
  }

  // ------------------------------------------------------- what the clock does to flows

  /** The flows not seen since they were last refreshed, in order. */
  function Idle(s: seq<Timed<FlowInfo>>): seq<FlowInfo> {
    if s == [] then []
    else (if s[0].item.updated <= s[0].item.refreshed then [s[0].item] else []) + Idle(s[1..])
  }

  /** The flows active for `slots` seconds or more of their lease. */
  function TooActive(s: seq<Timed<FlowInfo>>, slots: nat): seq<FlowInfo> {
    if s == [] then []
    else (if s[0].item.updated - s[0].item.refreshed >= slots && s[0].item.updated > s[0].item.refreshed
          then [s[0].item] else []) + TooActive(s[1..], slots)
  }

  /** The others, refreshed and due again after as long as they were active, the last renewed first. */
  function Renewals(s: seq<Timed<FlowInfo>>, slots: nat, now: int, tick: nat): seq<(FlowInfo, nat)> {
    if s == [] then []
    else
      var f := s[0].item;
      Renewals(s[1..], slots, now, tick)
      + if f.refreshed < f.updated < f.refreshed + slots
        then [(f.(refreshed := now), tick + (f.updated - f.refreshed))] else []
  }

  /** Flows and deadlines, without their serial numbers. */
  function Bare(s: seq<Timed<FlowInfo>>): (r: seq<(FlowInfo, nat)>)
    ensures |r| == |s|
  {
    seq(|s|, i requires 0 <= i < |s| => (s[i].item, s[i].due))
  }

  lemma DrainOneExact(t: Tracker, now: int)
    requires t.wheel.expired != []
    ensures var d, one := DrainOne(t, now), [t.wheel.expired[0]];
            && d.logged == t.logged + Idle(one) && d.lost == t.lost + TooActive(one, t.wheel.slots)
            && Bare(d.wheel.live) == Renewals(one, t.wheel.slots, now, t.wheel.tick) + Bare(t.wheel.live)
            && d.lastTs == t.lastTs && d.wheel.slots == t.wheel.slots && d.wheel.tick == t.wheel.tick
  {
    var x := t.wheel.expired[0];
    var none := [x][1..];
    assert none == [] && Idle(none) == [] && TooActive(none, t.wheel.slots) == [];
    assert Renewals(none, t.wheel.slots, now, t.wheel.tick) == [];
  }

  lemma FatesSplit(x: Timed<FlowInfo>, s: seq<Timed<FlowInfo>>, slots: nat, now: int, tick: nat)
    ensures Idle([x] + s) == Idle([x]) + Idle(s)
    ensures TooActive([x] + s, slots) == TooActive([x], slots) + TooActive(s, slots)
    ensures Renewals([x] + s, slots, now, tick) == Renewals(s, slots, now, tick) + Renewals([x], slots, now, tick)
  {
    var none := [x][1..];
    assert none == [] && ([x] + s)[1..] == s && ([x] + s)[0] == x;
    assert Idle(none) == [] && TooActive(none, slots) == [] && Renewals(none, slots, now, tick) == [];
  }

  lemma Assoc<T>(a: seq<T>, b: seq<T>, c: seq<T>)
    ensures a + b + c == a + (b + c)
  {
  }

  lemma {:induction false} DrainExact(t: Tracker, now: int)
    ensures var d, e := Drain(t, now), t.wheel.expired;
            && d.logged == t.logged + Idle(e) && d.lost == t.lost + TooActive(e, t.wheel.slots)
            && Bare(d.wheel.live) == Renewals(e, t.wheel.slots, now, t.wheel.tick) + Bare(t.wheel.live)
            && d.wheel.expired == [] && d.lastTs == t.lastTs && d.wheel.tick == t.wheel.tick
    decreases |t.wheel.expired|
  {
    if t.wheel.expired == [] {
    } else {
      var x, s, t1, n := t.wheel.expired[0], t.wheel.expired[1..], DrainOne(t, now), t.wheel.slots;
      assert Drain(t, now) == Drain(t1, now) && t.wheel.expired == [x] + s;
      DrainOneExact(t, now);
      DrainExact(t1, now);
      hide *;
      FatesSplit(x, s, n, now, t.wheel.tick);
      Assoc(t.logged, Idle([x]), Idle(s));
      Assoc(t.lost, TooActive([x], n), TooActive(s, n));
      Assoc(Renewals(s, n, now, t.wheel.tick), Renewals([x], n, now, t.wheel.tick), Bare(t.wheel.live));
    }
  }

  /** When the clock moves on by `k` seconds: of the flows whose lease is over, latest deadline first, the
      idle ones are logged and deleted, the others get as long again as they were active, unless that
      is a turn of the wheel; all other flows stay as they are. */
  lemma AdvanceSettles(t: Tracker, sec: int)
    requires Window(t.wheel) && t.wheel.expired == [] && t.lastTs != 0
    ensures var t' := Advance(t, sec);
            if t.lastTs < sec then
              var k := sec - t.lastTs;
              var over, rest := Batches(t.wheel.live, t.wheel.tick, k), DueFrom(t.wheel.live, t.wheel.tick + k);
              && t'.lastTs == sec && t'.wheel.tick == t.wheel.tick + k && t'.wheel.expired == []
              && t'.logged == t.logged + Idle(over) && t'.lost == t.lost + TooActive(over, t.wheel.slots)
              && Bare(t'.wheel.live) == Renewals(over, t.wheel.slots, sec, t.wheel.tick + k) + Bare(rest)
            else t' == t
  {
    if t.lastTs < sec {
      var k := sec - t.lastTs;
      ProgExact(t.wheel, k);
      var none: seq<Timed<FlowInfo>> := [];
      assert Batches(t.wheel.live, t.wheel.tick, k) + none == Batches(t.wheel.live, t.wheel.tick, k);
      DrainExact(t.(lastTs := sec, wheel := Prog(t.wheel, k)), sec);
    }
  }

  // ----------------------------------------------------------- the message log

  function LogsOf(log: seq<Message>): seq<Message> {
    if log == [] then []
    else LogsOf(log[..|log| - 1]) + if log[|log| - 1].FlowLog? then [log[|log| - 1]] else []
  }

  function NewsOf(log: seq<Message>): seq<Message> {
    if log == [] then []
    else NewsOf(log[..|log| - 1]) + if log[|log| - 1].FlowNew? then [log[|log| - 1]] else []
  }

  predicate IsField(o: Option<string>, s: string) {
    if s == "" then o == None else o == Some(s)
  }

  /** The message announces this birth: every field is the arrival's, a name only if there is one, and
      ports only if the packet has them. */
  predicate Announces(m: Message, b: Birth) {
    && m.FlowNew? && m.ts == b.p.sec && m.srcAddr == b.p.srcAddr && m.dstAddr == b.p.dstAddr
    && m.hash == b.p.hex && m.proto == b.p.proto
    && IsField(m.srcName, b.src) && IsField(m.dstName, b.dst)
    && if b.p.hasPort then m.ports == Some((b.p.srcPort, b.p.dstPort)) else m.ports == None
  }

  /** Each flow.log message is the message of one logged flow, in order; each flow.new announces one
      birth, in order; and every flow born is live, waiting, logged or lost. */
  ghost predicate LogExact(t: Tracker) {
    && LogsOf(t.log) == seq(|t.logged|, i requires 0 <= i < |t.logged| => LogMessage(t.logged[i]))
    && |NewsOf(t.log)| == |t.births|
    && (forall i | 0 <= i < |t.births| :: Announces(NewsOf(t.log)[i], t.births[i]))
    && |t.births| == |t.wheel.live| + |t.wheel.expired| + |t.logged| + |t.lost|
  }

  lemma {:induction false} DrainLogExact(t: Tracker, now: int)
    requires LogExact(t)
    ensures LogExact(Drain(t, now))
    decreases |t.wheel.expired|
  {
    if t.wheel.expired == [] {
    } else {
      var t1 := DrainOne(t, now);
      var f := t.wheel.expired[0].item;
      if Remain(f) == 0 {
        assert t1.log[..|t1.log| - 1] == t.log;
      }
      DrainLogExact(t1, now);
    }
  }

  lemma ProgKeepsCount(w: Wheel<FlowInfo>, k: nat)
    requires w.slots > 0
    ensures |Prog(w, k).live| + |Prog(w, k).expired| == |w.live| + |w.expired|
  {
    var v := Prog(w, k);
    SweepConserves(w, w.tick, k);
    assert |multiset(v.live) + multiset(v.expired)| == |multiset(w.live) + multiset(w.expired)|;
  }

  lemma AdvanceLogExact(t: Tracker, sec: int)
    requires t.wheel.slots > 0 && LogExact(t)
    ensures LogExact(Advance(t, sec))
  {
    if t.lastTs != 0 && t.lastTs < sec {
      var v := Prog(t.wheel, sec - t.lastTs);
      ProgKeepsCount(t.wheel, sec - t.lastTs);
      hide Prog, LogMessage, LogsOf, NewsOf;
      DrainLogExact(t.(lastTs := sec, wheel := v), sec);
    }
  }

  lemma RecordLogExact(t: Tracker, p: Packet, src: string, dst: string)
    requires t.wheel.slots > FLOW_TIMEOUT && LogExact(t)
    ensures LogExact(Record(t, p, src, dst))
  {
    var t1 := Create(t, p, src, dst);
    assert t1.log[..|t1.log| - 1] == t.log;
  }

  lemma {:induction false} RunKeepsLogExact(t: Tracker, s: seq<Arrival>)
    requires t.wheel.slots > FLOW_TIMEOUT && LogExact(t)
    ensures LogExact(ReceiveAll(t, s))
    decreases |s|
  {
    if s == [] {
    } else {
      AdvanceLogExact(t, s[0].p.sec);
      if s[0].ip {
        RecordLogExact(Advance(t, s[0].p.sec), s[0].p, s[0].src, s[0].dst);
      }
      RunKeepsLogExact(Receive(t, s[0]), s[1..]);
    }
  }

  /** After every stream, the messages emitted are those of the flows created and of the flows deleted. */
  lemma RunLogExact(s: seq<Arrival>)
    ensures LogExact(ReceiveAll(EMPTY, s))
  {
    assert LogsOf(EMPTY.log) == [];
    RunKeepsLogExact(EMPTY, s);
  }

  /** Every birth is an IP arrival of the stream. */
  ghost predicate BornIn(t: Tracker, s: seq<Arrival>) {
    forall b | b in t.births :: Arrival(b.p, true, b.src, b.dst) in s
  }

  lemma {:induction false} RunKeepsBorn(t: Tracker, seen: seq<Arrival>, s: seq<Arrival>)
    requires t.wheel.slots > FLOW_TIMEOUT && BornIn(t, seen)
    ensures BornIn(ReceiveAll(t, s), seen + s)
    decreases |s|
  {
    if s == [] {
      assert seen + s == seen;
    } else {
      var a := s[0];
      DrainKeepsMap(t, a.p.sec);
      assert BornIn(Receive(t, a), seen + [a]);
      RunKeepsBorn(Receive(t, a), seen + [a], s[1..]);
      assert seen + [a] + s[1..] == seen + s;
    }
  }

  /** After every stream, the i-th flow.new message announces the i-th flow created, by an arrival of the
      stream, with all it says of that arrival. */
  lemma NewsTell(s: seq<Arrival>, i: nat)
    requires i < |NewsOf(ReceiveAll(EMPTY, s).log)|
    ensures var t := ReceiveAll(EMPTY, s);
            && i < |t.births| && Announces(NewsOf(t.log)[i], t.births[i])
            && Arrival(t.births[i].p, true, t.births[i].src, t.births[i].dst) in s
  {
    hide ReceiveAll, NewsOf, LogsOf, Announces;
    RunLogExact(s);
    var none: seq<Arrival> := [];
    RunKeepsBorn(EMPTY, none, s);
    assert none + s == s;
    assert ReceiveAll(EMPTY, s).births[i] in ReceiveAll(EMPTY, s).births;
  }

  /** The message tells of the flow's packets: the client is the sender of the first of them, its
      counters are the totals in that packet's direction, the server's those of the other direction. */
  ghost predicate TellsOf(m: Message, f: FlowInfo) {
    && f.hist != [] && m.FlowLog?
    && var h := f.hist;
       var d := h[0].dir;
       var e := if d == L2R then R2L else L2R;
       && m.ts == h[0].sec
       && m.cPkt == CountDir(h, d) >= 1 && m.cSize == BytesDir(h, d)
       && m.sPkt == CountDir(h, e) && m.sSize == BytesDir(h, e)
       && m.cAddr == h[0].srcAddr && m.sAddr == h[0].dstAddr
       && IsField(m.cName, f.names.0) && IsField(m.sName, f.names.1)
       && m.cPort == h[0].srcPort && m.sPort == h[0].dstPort && m.hash == h[0].hex && m.proto == h[0].proto
       && m.initTs == h[0].sec && m.lastTs == h[|h| - 1].sec
  }

  lemma {:induction false} FirstCounts(h: seq<Packet>)
    requires h != []
    ensures CountDir(h, h[0].dir) >= 1
  {
    if |h| > 1 {
      FirstCounts(h[..|h| - 1]);
    }
  }

  lemma MessageTells(f: FlowInfo)
    requires Faithful(f)
    ensures TellsOf(LogMessage(f), f)
  {
    FirstCounts(f.hist);
  }

  /** Every flow.log message of every run tells of the packets of its flow, at least one of them the
      client's. */
  lemma LogCountsByDirection(s: seq<Arrival>, i: nat)
    requires i < |LogsOf(ReceiveAll(EMPTY, s).log)|
    ensures var t := ReceiveAll(EMPTY, s);
            var m := LogsOf(t.log)[i];
            i < |t.logged| && TellsOf(m, t.logged[i]) && NamedIn(s)(t.logged[i])
  {
    var t := ReceiveAll(EMPTY, s);
    RunLogExact(s);
    RunFaithful(s);
    RunNamed(s);
    assert t.logged[i] in t.logged;
    MessageTells(t.logged[i]);
  }

  // ------------------------------------------------------ one live flow per key

  function KeyIs(hv: nat, ssn: Bytes): FlowInfo -> int {
    (f: FlowInfo) => if f.hv == hv && f.ssn == ssn then 1 else 0
  }

  /** How many flows with this key are in the table. */
  function Held(t: Tracker, hv: nat, ssn: Bytes): int {
    Total(t.wheel, Lift(KeyIs(hv, ssn)))
  }

  lemma {:induction false} DrainHolds(t: Tracker, now: int, hv: nat, ssn: Bytes)
    ensures Held(Drain(t, now), hv, ssn) <= Held(t, hv, ssn)
    decreases |t.wheel.expired|
  {
    if t.wheel.expired == [] {
    } else {
      var f := t.wheel.expired[0].item;
      var w := Pop(t.wheel);
      if 0 < Remain(f) < w.slots {
        assert Put(w, Remain(f), Refresh(f, now)).live[1..] == w.live;
      }
      DrainHolds(DrainOne(t, now), now, hv, ssn);
    }
  }

  lemma {:induction false} NotFoundNotHeld(s: seq<Timed<FlowInfo>>, hv: nat, ssn: Bytes)
    ensures Sum(s, Lift(KeyIs(hv, ssn))) >= 0
    ensures FindFlow(s, hv, ssn) == |s| <==> Sum(s, Lift(KeyIs(hv, ssn))) == 0
  {
    if s == [] {
    } else {
      NotFoundNotHeld(s[1..], hv, ssn);
    }
  }

  /** Between packets nothing waits on the expired chain and no key has two live flows. */
  ghost predicate OneFlowPerKey(t: Tracker) {
    t.wheel.expired == [] && forall hv: nat, ssn: Bytes :: Held(t, hv, ssn) <= 1
  }

  lemma AdvanceHolds(t: Tracker, sec: int, hv: nat, ssn: Bytes)
    requires t.wheel.slots > 0
    ensures Held(Advance(t, sec), hv, ssn) <= Held(t, hv, ssn)
  {
    hide Drain, Sweep, Sum;
    if t.lastTs != 0 && t.lastTs < sec {
      var t1 := t.(lastTs := sec, wheel := Prog(t.wheel, sec - t.lastTs));
      SweepKeepsTotal(t.wheel, t.wheel.tick, sec - t.lastTs, Lift(KeyIs(hv, ssn)));
      assert Held(t1, hv, ssn) == Held(t, hv, ssn);
      DrainHolds(t1, sec, hv, ssn);
    }
  }

  lemma AdvanceOneFlow(t: Tracker, sec: int)
    requires t.wheel.slots > 0 && OneFlowPerKey(t)
    ensures OneFlowPerKey(Advance(t, sec))
  {
    if t.lastTs != 0 && t.lastTs < sec {
      DrainFrame(t.(lastTs := sec, wheel := Prog(t.wheel, sec - t.lastTs)), sec);
    }
    forall hv: nat, ssn: Bytes
      ensures Held(Advance(t, sec), hv, ssn) <= 1
    {
      AdvanceHolds(t, sec, hv, ssn);
      assert Held(t, hv, ssn) <= 1;
    }
  }

  lemma AccountHolds(t: Tracker, i: nat, p: Packet, hv: nat, ssn: Bytes)
    requires i < |t.wheel.live|
    ensures Held(Account(t, i, p), hv, ssn) == Held(t, hv, ssn)
  {
    SumUpdate(t.wheel.live, i, UpdateFlow(t.wheel.live[i].item, p), KeyIs(hv, ssn));
  }

  lemma RecordHolds(t: Tracker, p: Packet, src: string, dst: string, hv: nat, ssn: Bytes)
    requires t.wheel.slots > FLOW_TIMEOUT && t.wheel.expired == []
    requires Held(t, hv, ssn) <= 1
    ensures Held(Record(t, p, src, dst), hv, ssn)
         == if hv == p.hv && ssn == p.ssn then 1 else Held(t, hv, ssn)
  {
    NotFoundNotHeld(t.wheel.live, hv, ssn);
    if FindFlow(t.wheel.live, p.hv, p.ssn) < |t.wheel.live| {
      AccountHolds(t, FindFlow(t.wheel.live, p.hv, p.ssn), p, hv, ssn);
    } else {
      var t1 := Create(t, p, src, dst);
      assert t1.wheel.live[1..] == t.wheel.live;
      AccountHolds(t1, 0, p, hv, ssn);
    }
  }

  lemma RecordOneFlow(t: Tracker, p: Packet, src: string, dst: string)
    requires t.wheel.slots > FLOW_TIMEOUT && OneFlowPerKey(t)
    ensures OneFlowPerKey(Record(t, p, src, dst))
    ensures Held(Record(t, p, src, dst), p.hv, p.ssn) == 1
  {
    forall hv: nat, ssn: Bytes
      ensures Held(Record(t, p, src, dst), hv, ssn) <= 1
    {
      assert Held(t, hv, ssn) <= 1;
      RecordHolds(t, p, src, dst, hv, ssn);
    }
    RecordHolds(t, p, src, dst, p.hv, p.ssn);
  }

  /** Over every stream, between packets each (hash, session label) has at most one live flow. */
  lemma {:induction false} RunKeepsOneFlow(t: Tracker, s: seq<Arrival>)
    requires t.wheel.slots > FLOW_TIMEOUT && OneFlowPerKey(t)
    ensures OneFlowPerKey(ReceiveAll(t, s))
    decreases |s|
  {
    if s == [] {
    } else {
      AdvanceOneFlow(t, s[0].p.sec);
      if s[0].ip {
        RecordOneFlow(Advance(t, s[0].p.sec), s[0].p, s[0].src, s[0].dst);
      }
      RunKeepsOneFlow(Receive(t, s[0]), s[1..]);
    }
  }

  /** After every stream, no two live flows are of one key, and nothing waits on the expired chain. */
  lemma RunOneFlow(s: seq<Arrival>)
    ensures OneFlowPerKey(ReceiveAll(EMPTY, s))
  {
    assert OneFlowPerKey(EMPTY);
    RunKeepsOneFlow(EMPTY, s);
  }

  lemma {:induction false} NewsAndLogs(log: seq<Message>)
    ensures |NewsOf(log)| + |LogsOf(log)| == |log|
  {
    if log == [] {
    } else {
      NewsAndLogs(log[..|log| - 1]);
    }
  }

  /** After every stream: flow.new messages = flow.log messages + live flows + lost flows. */
  lemma NewEqualsLoggedPlusLive(s: seq<Arrival>)
    ensures var t := ReceiveAll(EMPTY, s);
            && |NewsOf(t.log)| == |LogsOf(t.log)| + |t.wheel.live| + |t.lost|
            && |NewsOf(t.log)| + |LogsOf(t.log)| == |t.log|
  {
    RunLogExact(s);
    RunOneFlow(s);
    NewsAndLogs(ReceiveAll(EMPTY, s).log);
  }

  // ------------------------------------------------- traffic as the messages tell it

  const LOGGED_PACKETS: Message -> int := (m: Message) => if m.FlowLog? then m.cPkt + m.sPkt else 0

  const LOGGED_BYTES: Message -> int := (m: Message) => if m.FlowLog? then m.cSize + m.sSize else 0

  function SumMessages(s: seq<Message>, k: Message -> int): int {
    if s == [] then 0 else SumMessages(s[..|s| - 1], k) + k(s[|s| - 1])
  }

  lemma {:induction false} MessagesSumFlows(ms: seq<Message>, fs: seq<FlowInfo>, k: Message -> int, n: FlowInfo -> int)
    requires |ms| == |fs| && forall i | 0 <= i < |ms| :: k(ms[i]) == n(fs[i])
    ensures SumMessages(ms, k) == SumFlows(fs, n)
  {
    if ms == [] {
    } else {
      MessagesSumFlows(ms[..|ms| - 1], fs[..|fs| - 1], k, n);
    }
  }

  lemma MeasureReported(s: seq<Arrival>, k: Message -> int, n: FlowInfo -> int)
    requires forall f: FlowInfo :: k(LogMessage(f)) == n(f)
    ensures var t := ReceiveAll(EMPTY, s);
            SumMessages(LogsOf(t.log), k) + Sum(t.wheel.live, Lift(n)) + SumFlows(t.lost, n) == Everywhere(t, n)
  {
    var t := ReceiveAll(EMPTY, s);
    RunLogExact(s);
    RunOneFlow(s);
    MessagesSumFlows(LogsOf(t.log), t.logged, k, n);
  }

  /** On any clock: the packets and bytes in the flow.log messages, of the live flows and of the lost ones
      are together those received. */
  lemma TrafficReported(s: seq<Arrival>)
    ensures var t := ReceiveAll(EMPTY, s);
            && SumMessages(LogsOf(t.log), LOGGED_PACKETS) + Sum(t.wheel.live, Lift(PACKETS))
               + SumFlows(t.lost, PACKETS) == Received(s, ONE)
            && SumMessages(LogsOf(t.log), LOGGED_BYTES) + Sum(t.wheel.live, Lift(BYTES))
               + SumFlows(t.lost, BYTES) == Received(s, LENGTH)
  {
    hide ReceiveAll, Everywhere, LogsOf;
    MeasureReported(s, LOGGED_PACKETS, PACKETS);
    MeasureReported(s, LOGGED_BYTES, BYTES);
    CountersConserved(s);
  }
}
