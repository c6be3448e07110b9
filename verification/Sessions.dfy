/** A whole session of the program: both modules are fed one event after another, then shut down. */
module Sessions {
  import opened Basics
  import opened DnsModule
  import opened Flows
  import LruHash
  import TimingWheel
  import FlowModel
  import FlowLaws
  import FlowLives
  import FlowLeases
  import DnsModel
  import DnsLeases
  import DnsTimeouts

  type Dns = DnsModel.Dns

  type Tracker = FlowModel.Tracker

  /** What the capture library delivers: a DNS packet to the DNS module, or a packet to the flow module
      with the event it came as and its two raw addresses. */
  datatype Event =
    | DnsEvent(dns: DnsModel.DnsPacket)
    | FlowEvent(eid: nat, p: FlowModel.Packet, srcAddr: Bytes, dstAddr: Bytes)

  predicate IsRaw(addr: Bytes) {
    |addr| == 4 || |addr| == 16
  }

  predicate Proper(e: Event) {
    if e.DnsEvent? then DnsModel.WellFormed(e.dns) else IsRaw(e.srcAddr) && IsRaw(e.dstAddr)
  }

  predicate Slots(d: Dns) {
    d.queries.slots > 0 && d.addrs.slots > 0 && d.names.slots > 0
  }

  function DnsAfter(d: Dns, e: Event): (d': Dns)
    requires Slots(d) && Proper(e)
    ensures Slots(d')
  {
    if e.DnsEvent? then DnsModel.Receive(d, e.dns) else d
  }

  /** A packet of the flow module, with the names that the DNS module knows when it arrives. */
  function Arriving(d: Dns, ev4: nat, ev6: nat, e: Event): FlowModel.Arrival
    requires e.FlowEvent?
  {
    FlowModel.Arrival(e.p, e.eid == ev4 || e.eid == ev6,
                      DnsModel.Resolve(d, e.srcAddr, 32), DnsModel.Resolve(d, e.dstAddr, 32))
  }

  function DnsPart(es: seq<Event>): (s: seq<DnsModel.DnsPacket>)
    requires forall e | e in es :: Proper(e)
    ensures forall p | p in s :: DnsModel.WellFormed(p)
  {
    if es == [] then []
    else
      assert Proper(es[0]);
      (if es[0].DnsEvent? then [es[0].dns] else []) + DnsPart(es[1..])
  }

  function FlowPart(d: Dns, ev4: nat, ev6: nat, es: seq<Event>): seq<FlowModel.Arrival>
    requires Slots(d) && forall e | e in es :: Proper(e)
    decreases |es|
  {
    if es == [] then []
    else
      assert Proper(es[0]);
      (if es[0].FlowEvent? then [Arriving(d, ev4, ev6, es[0])] else [])
      + FlowPart(DnsAfter(d, es[0]), ev4, ev6, es[1..])
  }

  ghost predicate Running(dns: ModDns, flow: ModFlow)
    reads dns, dns.queries, dns.addrs, dns.names, dns.Footprint(), flow, flow.table, flow.Footprint()
  {
    && dns.Valid() && flow.Valid() && dns.Footprint() !! flow.Footprint()
    && Slots(dns.st) && flow.st.wheel.slots == FlowModel.FLOW_SLOTS
  }

  method DeliverDns(dns: ModDns, flow: ModFlow, p: DnsModel.DnsPacket)
    requires Running(dns, flow) && DnsModel.WellFormed(p)
    modifies dns.Footprint()
    ensures Running(dns, flow) && flow.st == old(flow.st)
    ensures fresh(dns.Footprint() - old(dns.Footprint())) && flow.Footprint() == old(flow.Footprint())
    ensures dns.st == DnsModel.Receive(old(dns.st), p)
  {
    hide ModDns.Valid, ModFlow.Valid, ModFlow.TableOk, LruHash.LRUHash.Valid, DnsModel.Receive;
    dns.Recv(p);
  }

  method DeliverFlow(dns: ModDns, flow: ModFlow, eid: nat, p: FlowModel.Packet, src: Bytes, dst: Bytes)
    requires Running(dns, flow) && IsRaw(src) && IsRaw(dst)
    modifies flow.Footprint()
    ensures Running(dns, flow) && dns.st == old(dns.st)
    ensures fresh(flow.Footprint() - old(flow.Footprint())) && dns.Footprint() == old(dns.Footprint())
    ensures flow.st == FlowModel.Receive(old(flow.st), Arriving(dns.st, flow.evIpv4, flow.evIpv6,
                                                                FlowEvent(eid, p, src, dst)))
  {
    hide ModDns.Valid, ModFlow.Valid, LruHash.LRUHash.Valid, DnsModel.Resolve, FlowModel.Receive;
    flow.Recv(eid, p, dns, src, dst);
  }

  /** Feeds one event to its module. */
  method Deliver(dns: ModDns, flow: ModFlow, e: Event)
    requires Running(dns, flow) && Proper(e)
    modifies dns.Footprint(), flow.Footprint()
    ensures Running(dns, flow)
    ensures fresh(dns.Footprint() - old(dns.Footprint())) && fresh(flow.Footprint() - old(flow.Footprint()))
    ensures dns.st == DnsAfter(old(dns.st), e)
    ensures flow.st == if e.DnsEvent? then old(flow.st)
                       else FlowModel.Receive(old(flow.st), Arriving(old(dns.st), flow.evIpv4, flow.evIpv6, e))
  {
    hide ModDns.Valid, ModFlow.Valid, DnsModel.Receive, FlowModel.Receive, DnsModel.Resolve;
    match e
    case DnsEvent(p) =>
      DeliverDns(dns, flow, p);
    case FlowEvent(eid, p, src, dst) =>
      DeliverFlow(dns, flow, eid, p, src, dst);
  }

  /** Both machines take the first event, and go on with the rest. */
  lemma PartsStep(d: Dns, t: Tracker, ev4: nat, ev6: nat, es: seq<Event>)
    requires es != [] && Slots(d) && t.wheel.slots > FlowModel.FLOW_TIMEOUT && forall e | e in es :: Proper(e)
    ensures Proper(es[0])
    ensures DnsModel.ReceiveAll(d, DnsPart(es)) == DnsModel.ReceiveAll(DnsAfter(d, es[0]), DnsPart(es[1..]))
    ensures var t' := if es[0].DnsEvent? then t else FlowModel.Receive(t, Arriving(d, ev4, ev6, es[0]));
            FlowModel.ReceiveAll(t, FlowPart(d, ev4, ev6, es))
            == FlowModel.ReceiveAll(t', FlowPart(DnsAfter(d, es[0]), ev4, ev6, es[1..]))
  {
    hide DnsModel.Receive, FlowModel.Receive, DnsModel.Resolve;
    assert es[0] in es;
    var s, later := DnsPart(es), DnsPart(es[1..]);
    var a, after := FlowPart(d, ev4, ev6, es), FlowPart(DnsAfter(d, es[0]), ev4, ev6, es[1..]);
    if es[0].DnsEvent? {
      assert s[1..] == later && a == after;
    } else {
      assert s == later && a[1..] == after;
    }
  }

  lemma PartsEnd(d: Dns, t: Tracker, ev4: nat, ev6: nat)
    requires Slots(d) && t.wheel.slots > FlowModel.FLOW_TIMEOUT
    ensures DnsModel.ReceiveAll(d, DnsPart([])) == d && FlowModel.ReceiveAll(t, FlowPart(d, ev4, ev6, [])) == t
  {
  }

  /** Feeds the events in order: each module ends where its own state machine ends. */
  method DeliverAll(dns: ModDns, flow: ModFlow, es: seq<Event>)
    requires Running(dns, flow) && forall e | e in es :: Proper(e)
    modifies dns.Footprint(), flow.Footprint()
    ensures Running(dns, flow)
    ensures fresh(dns.Footprint() - old(dns.Footprint())) && fresh(flow.Footprint() - old(flow.Footprint()))
    ensures dns.st == DnsModel.ReceiveAll(old(dns.st), DnsPart(es))
    ensures flow.st == FlowModel.ReceiveAll(old(flow.st), FlowPart(old(dns.st), flow.evIpv4, flow.evIpv6, es))
  {
    hide ModDns.Valid, ModFlow.Valid, DnsModel.ReceiveAll, FlowModel.ReceiveAll, DnsPart, FlowPart, DnsAfter, Arriving;
    if es == [] {
      PartsEnd(dns.st, flow.st, flow.evIpv4, flow.evIpv6);
      return;
    }
    PartsStep(dns.st, flow.st, flow.evIpv4, flow.evIpv6, es);
    Deliver(dns, flow, es[0]);
    DeliverAll(dns, flow, es[1..]);
  }

  /** Shuts the DNS module down, and then the flow module. */
  method Shutdown(dns: ModDns, flow: ModFlow)
    requires Running(dns, flow)
    modifies dns.Footprint(), flow.Footprint()
    ensures dns.log == DnsModel.Close(old(dns.st)).log
    ensures flow.log == old(flow.st).log && flow.updateMap == old(flow.st).updates
  {
    hide ModDns.Valid, ModFlow.Valid, DnsModel.Close;
    flow.Shown();
    dns.Close();
    dns.Shown();
    flow.Close();
    flow.Shown();
  }

  /** On a DNS clock that does not go back, a session reports what the simple machine reports, and then a
      timeout for each query without a response. */
  lemma SessionReports(s: seq<DnsModel.DnsPacket>)
    requires DnsLeases.Monotone(s, 0) && forall p | p in s :: DnsModel.WellFormed(p)
    ensures var all, log := DnsModel.Close(DnsModel.ReceiveAll(DnsModel.EMPTY, s)).log,
                            DnsLeases.RefRun(DnsLeases.START, s).log;
            && log <= all
            && multiset(all[|log|..])
            == multiset(DnsTimeouts.Reports(DnsTimeouts.Unresponded(DnsLeases.START, s), true))
  {
    hide *;
    DnsTimeouts.TimeoutsAreUnresponded(s);
    DnsLeases.MatchesTimestampedMaps(s, [], 0);
  }

  /** The packets of the flow module with the names that the simple machine has at second `now`. */
  function SimplyNamed(r: DnsLeases.Ref, now: int, ev4: nat, ev6: nat, es: seq<Event>): seq<FlowModel.Arrival>
    decreases |es|
  {
    if es == [] then []
    else if es[0].DnsEvent? then
      SimplyNamed(DnsLeases.RefStep(r, es[0].dns), es[0].dns.sec, ev4, ev6, es[1..])
    else
      var e := es[0];
      [FlowModel.Arrival(e.p, e.eid == ev4 || e.eid == ev6, DnsLeases.RefResolve(r, e.srcAddr, now, 32),
                         DnsLeases.RefResolve(r, e.dstAddr, now, 32))]
      + SimplyNamed(r, now, ev4, ev6, es[1..])
  }

  /** On a DNS clock that does not go back, flows are named as the simple machine names them. */
  lemma {:induction false} NamesAgree(d: Dns, r: DnsLeases.Ref, ev4: nat, ev6: nat, es: seq<Event>)
    requires DnsLeases.Agrees(d, r) && forall e | e in es :: Proper(e)
    requires DnsLeases.Monotone(DnsPart(es), d.lastTs)
    ensures Slots(d) && FlowPart(d, ev4, ev6, es) == SimplyNamed(r, d.lastTs, ev4, ev6, es)
    decreases |es|
  {
    hide DnsLeases.Mirrors, DnsLeases.Lists, DnsModel.Receive, DnsLeases.RefStep, DnsModel.Resolve,
         DnsLeases.RefResolve;
    if es == [] {
    } else {
      assert Proper(es[0]);
      if es[0].DnsEvent? {
        var p := es[0].dns;
        assert DnsPart(es)[0] == p && DnsPart(es)[1..] == DnsPart(es[1..]);
        DnsLeases.StepAgrees(d, r, p);
        NamesAgree(DnsModel.Receive(d, p), DnsLeases.RefStep(r, p), ev4, ev6, es[1..]);
      } else {
        assert DnsPart(es) == DnsPart(es[1..]);
        DnsLeases.ResolveAgrees(d, r, es[0].srcAddr, 32);
        DnsLeases.ResolveAgrees(d, r, es[0].dstAddr, 32);
        NamesAgree(d, r, ev4, ev6, es[1..]);
      }
    }
  }

  /** The flow half: on a DNS clock that does not go back and a flow clock less than 3000 seconds behind,
      no flow is lost, announcements of one key are spaced, every packet is in a message or a live flow,
      and each flow.log message has the names that the simple machine gave the ends of the flow's first
      packet as it arrived. */
  lemma SessionFlows(ev4: nat, ev6: nat, es: seq<Event>, low: int, skew: nat, i: nat)
    requires (forall e | e in es :: Proper(e)) && DnsLeases.Monotone(DnsPart(es), 0)
    requires FlowLeases.Within(FlowPart(DnsModel.EMPTY, ev4, ev6, es), low, skew, 0)
    requires 0 < low && skew < FlowLeases.SKEW_LIMIT
    ensures var s := SimplyNamed(DnsLeases.START, 0, ev4, ev6, es);
            var t := FlowModel.ReceiveAll(FlowModel.EMPTY, FlowPart(DnsModel.EMPTY, ev4, ev6, es));
            var logs := FlowLives.LogsOf(t.log);
            && t.lost == [] && FlowLeases.Spaced(t.births, skew) && FlowLeases.Announced(t)
            && |FlowLives.NewsOf(t.log)| == |logs| + |t.wheel.live|
            && FlowLives.SumMessages(logs, FlowLives.LOGGED_BYTES)
               + TimingWheel.Sum(t.wheel.live, FlowLaws.Lift(FlowLaws.BYTES)) == FlowLaws.Received(s, FlowLaws.LENGTH)
            && (i < |logs| ==>
                  && i < |t.logged| && FlowLives.TellsOf(logs[i], t.logged[i])
                  && FlowLives.NamedIn(s)(t.logged[i]))
  {
    hide FlowModel.ReceiveAll, FlowLeases.Within, FlowLeases.Leased, FlowLeases.Spaced, FlowLeases.Announced,
         FlowLives.LogsOf, FlowLives.NewsOf, FlowLives.NamedIn, FlowLives.TellsOf, FlowLives.SumMessages,
         DnsLeases.Monotone, DnsLeases.Agrees, FlowPart, SimplyNamed, DnsPart, Proper;
    var s := FlowPart(DnsModel.EMPTY, ev4, ev6, es);
    DnsLeases.StartAgrees();
    NamesAgree(DnsModel.EMPTY, DnsLeases.START, ev4, ev6, es);
    FlowLeases.EmptyTracker(skew);
    FlowLeases.SmallSkewKeepsFlows(FlowModel.EMPTY, s, low, skew);
    FlowLeases.FlowsAccountedFor(s, low, skew);
    FlowLeases.NothingUnreported(s, low, skew);
    if i < |FlowLives.LogsOf(FlowModel.ReceiveAll(FlowModel.EMPTY, s).log)| {
      FlowLives.LogCountsByDirection(s, i);
    }
  }

  /** A session from start to end, on any events and any clock, ends with the two machines' messages and
      byte map, so what is proved of their runs holds of it. */
  method Session(ev4: nat, ev6: nat, es: seq<Event>)
    returns (dnsLog: seq<DnsModel.DnsMessage>, flowLog: seq<FlowModel.Message>, bytes: map<string, nat>)
    requires forall e | e in es :: Proper(e)
    ensures dnsLog == DnsModel.Close(DnsModel.ReceiveAll(DnsModel.EMPTY, DnsPart(es))).log
    ensures var t := FlowModel.ReceiveAll(FlowModel.EMPTY, FlowPart(DnsModel.EMPTY, ev4, ev6, es));
            flowLog == t.log && bytes == t.updates
  {
    hide ModDns.Valid, ModFlow.Valid, DnsModel.ReceiveAll, FlowModel.ReceiveAll, DnsModel.Close, DnsPart, FlowPart,
         Proper;
    var dns := new ModDns();
    var flow := new ModFlow(ev4, ev6);
    dns.Shown();
    flow.Shown();
    DeliverAll(dns, flow, es);
    Shutdown(dns, flow);
    dnsLog, flowLog, bytes := dns.log, flow.log, flow.updateMap;
  }
}
