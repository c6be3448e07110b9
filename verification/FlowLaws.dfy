/** What holds of the flow tracker over every packet stream. */
module FlowLaws {
  import opened TimingWheel
  import opened FlowModel

  // ------------------------------------------------------------- conservation

  function Lift(n: FlowInfo -> int): Timed<FlowInfo> -> int {
    (x: Timed<FlowInfo>) => n(x.item)
  }

  function SumFlows(s: seq<FlowInfo>, n: FlowInfo -> int): int {
    if s == [] then 0 else SumFlows(s[..|s| - 1], n) + n(s[|s| - 1])
  }

  /** A measure summed over every flow there ever was: live, expired, logged or lost. */
  function Everywhere(t: Tracker, n: FlowInfo -> int): int {
    Total(t.wheel, Lift(n)) + SumFlows(t.logged, n) + SumFlows(t.lost, n)
  }

  /** A measure that a new lease does not change. */
  ghost predicate Steady(n: FlowInfo -> int) {
    forall f: FlowInfo, now: int :: n(Refresh(f, now)) == n(f)
  }

  /** A measure that grows by `g(p)` when packet `p` is accounted to its flow. */
  ghost predicate Gains(n: FlowInfo -> int, g: Packet -> int) {
    && (forall p: Packet, src: string, dst: string :: n(NewFlow(p, src, dst)) == 0)
    && (forall f: FlowInfo, p: Packet | f.hv == p.hv && f.ssn == p.ssn :: n(UpdateFlow(f, p)) == n(f) + g(p))
  }

  function Received(s: seq<Arrival>, g: Packet -> int): int {
    if s == [] then 0 else (if s[0].ip then g(s[0].p) else 0) + Received(s[1..], g)
  }

  lemma DrainOneKeeps(t: Tracker, now: int, n: FlowInfo -> int)
    requires t.wheel.expired != [] && Steady(n)
    ensures Everywhere(DrainOne(t, now), n) == Everywhere(t, n)
  {
    var f := t.wheel.expired[0].item;
    var w := Pop(t.wheel);
    assert n(Refresh(f, now)) == n(f);
    assert (t.lost + [f])[..|t.lost|] == t.lost && (t.logged + [f])[..|t.logged|] == t.logged;
    if 0 < Remain(f) < w.slots {
      assert Put(w, Remain(f), Refresh(f, now)).live[1..] == w.live;
    }
  }

  lemma {:induction false} DrainKeeps(t: Tracker, now: int, n: FlowInfo -> int)
    requires Steady(n)
    ensures Everywhere(Drain(t, now), n) == Everywhere(t, n)
    decreases |t.wheel.expired|
  {
    if t.wheel.expired == [] {
    } else {
      DrainOneKeeps(t, now, n);
      DrainKeeps(DrainOne(t, now), now, n);
    }
  }

  lemma AdvanceKeeps(t: Tracker, sec: int, n: FlowInfo -> int)
    requires t.wheel.slots > 0 && Steady(n)
    ensures Everywhere(Advance(t, sec), n) == Everywhere(t, n)
  {
    if t.lastTs != 0 && t.lastTs < sec {
      var d := sec - t.lastTs;
      SweepKeepsTotal(t.wheel, t.wheel.tick, d, Lift(n));
      var t1 := t.(lastTs := sec, wheel := Prog(t.wheel, d));
      assert Everywhere(t1, n) == Everywhere(t, n);
      DrainKeeps(t1, sec, n);
    }
  }

  lemma {:induction false} SumUpdate(s: seq<Timed<FlowInfo>>, i: nat, f: FlowInfo, n: FlowInfo -> int)
    requires i < |s|
    ensures Sum(s[i := s[i].(item := f)], Lift(n)) == Sum(s, Lift(n)) - n(s[i].item) + n(f)
  {
    var s' := s[i := s[i].(item := f)];
    if i == 0 {
      assert s'[1..] == s[1..];
    } else {
      SumUpdate(s[1..], i - 1, f, n);
      assert s'[1..] == s[1..][i - 1 := s[i].(item := f)];
    }
  }

  lemma AccountAdds(t: Tracker, i: nat, p: Packet, n: FlowInfo -> int)
    requires i < |t.wheel.live|
    ensures var f := t.wheel.live[i].item;
            Everywhere(Account(t, i, p), n) == Everywhere(t, n) - n(f) + n(UpdateFlow(f, p))
  {
    SumUpdate(t.wheel.live, i, UpdateFlow(t.wheel.live[i].item, p), n);
  }

  lemma CreateAdds(t: Tracker, p: Packet, src: string, dst: string, n: FlowInfo -> int)
    requires t.wheel.slots > FLOW_TIMEOUT
    ensures Everywhere(Create(t, p, src, dst), n) == Everywhere(t, n) + n(NewFlow(p, src, dst))
  {
    assert Create(t, p, src, dst).wheel.live[1..] == t.wheel.live;
  }

  lemma RecordAdds(t: Tracker, p: Packet, src: string, dst: string, n: FlowInfo -> int, g: Packet -> int)
    requires t.wheel.slots > FLOW_TIMEOUT && Gains(n, g)
    ensures Everywhere(Record(t, p, src, dst), n) == Everywhere(t, n) + g(p)
  {
    var i := FindFlow(t.wheel.live, p.hv, p.ssn);
    if i < |t.wheel.live| {
      AccountAdds(t, i, p, n);
    } else {
      CreateAdds(t, p, src, dst, n);
      AccountAdds(Create(t, p, src, dst), 0, p, n);
    }
  }

  /** Whatever the clock does, every measure of the traffic is conserved: what all flows together
      carry is what was received. */
  lemma {:induction false} TrafficConserved(t: Tracker, s: seq<Arrival>, n: FlowInfo -> int, g: Packet -> int)
    requires t.wheel.slots > FLOW_TIMEOUT && Steady(n) && Gains(n, g)
    ensures Everywhere(ReceiveAll(t, s), n) == Everywhere(t, n) + Received(s, g)
    decreases |s|
  {
    if s == [] {
    } else {
      var a := s[0];
      AdvanceKeeps(t, a.p.sec, n);
      if a.ip {
        RecordAdds(Advance(t, a.p.sec), a.p, a.src, a.dst, n, g);
      }
      TrafficConserved(Receive(t, a), s[1..], n, g);
    }
  }

  const PACKETS: FlowInfo -> int := (f: FlowInfo) => f.lPkt + f.rPkt

  const BYTES: FlowInfo -> int := (f: FlowInfo) => f.lSize + f.rSize

  const ONE: Packet -> int := (p: Packet) => 1

  const LENGTH: Packet -> int := (p: Packet) => p.len

  function Copies(q: Packet): FlowInfo -> int {
    (f: FlowInfo) => multiset(f.hist)[q]
  }

  function Is(q: Packet): Packet -> int {
    (p: Packet) => if p == q then 1 else 0
  }

  lemma CopiesGain(q: Packet)
    ensures Steady(Copies(q)) && Gains(Copies(q), Is(q))
  {
  }

  lemma CountersGain()
    ensures Steady(PACKETS) && Gains(PACKETS, ONE)
    ensures Steady(BYTES) && Gains(BYTES, LENGTH)
  {
  }

  lemma EmptyIsZero(n: FlowInfo -> int)
    ensures Everywhere(EMPTY, n) == 0 && EMPTY.wheel.slots > FLOW_TIMEOUT
  {
    hide Lift;
  }

  lemma ConservedFromStart(s: seq<Arrival>, n: FlowInfo -> int, g: Packet -> int)
    requires Steady(n) && Gains(n, g)
    ensures Everywhere(ReceiveAll(EMPTY, s), n) == Received(s, g)
  {
    hide *;
    EmptyIsZero(n);
    TrafficConserved(EMPTY, s, n, g);
  }

  /** Each packet received is accounted to exactly one flow, as often as it was received. */
  lemma PacketsPartitioned(s: seq<Arrival>, q: Packet)
    ensures Everywhere(ReceiveAll(EMPTY, s), Copies(q)) == Received(s, Is(q))
  {
    CopiesGain(q);
    ConservedFromStart(s, Copies(q), Is(q));
  }

  /** Packets and bytes over all flows equal the packets and bytes received. */
  lemma CountersConserved(s: seq<Arrival>)
    ensures Everywhere(ReceiveAll(EMPTY, s), PACKETS) == Received(s, ONE)
    ensures Everywhere(ReceiveAll(EMPTY, s), BYTES) == Received(s, LENGTH)
  {
    CountersGain();
    ConservedFromStart(s, PACKETS, ONE);
    ConservedFromStart(s, BYTES, LENGTH);
  }

  // -------------------------------------------------------------- the byte map

  function BytesUnder(h: string): FlowInfo -> int {
    (f: FlowInfo) => if f.hex == h then f.lSize + f.rSize else 0
  }

  ghost predicate UpdatesExact(t: Tracker) {
    forall h: string :: (if h in t.updates then t.updates[h] else 0) == Everywhere(t, BytesUnder(h))
  }

  lemma AccountKeepsUpdates(t: Tracker, i: nat, p: Packet)
    requires i < |t.wheel.live| && UpdatesExact(t)
    ensures UpdatesExact(Account(t, i, p))
  {
    forall h: string
      ensures (if h in Account(t, i, p).updates then Account(t, i, p).updates[h] else 0)
           == Everywhere(Account(t, i, p), BytesUnder(h))
    {
      AccountAdds(t, i, p, BytesUnder(h));
    }
  }

  lemma {:induction false} DrainFrame(t: Tracker, now: int)
    ensures var d := Drain(t, now);
            d.wheel.expired == [] && d.updates == t.updates && d.births == t.births && d.lastTs == t.lastTs
    decreases |t.wheel.expired|
  {
    if t.wheel.expired == [] {
    } else {
      DrainFrame(DrainOne(t, now), now);
    }
  }

  lemma DrainKeepsMap(t: Tracker, sec: int)
    requires t.wheel.slots > 0
    ensures Advance(t, sec).updates == t.updates && Advance(t, sec).births == t.births
  {
    if t.lastTs != 0 && t.lastTs < sec {
      DrainFrame(t.(lastTs := sec, wheel := Prog(t.wheel, sec - t.lastTs)), sec);
    }
  }

  lemma AdvanceKeepsUpdates(t: Tracker, sec: int)
    requires t.wheel.slots > 0 && UpdatesExact(t)
    ensures UpdatesExact(Advance(t, sec))
  {
    DrainKeepsMap(t, sec);
    forall h: string
      ensures Everywhere(Advance(t, sec), BytesUnder(h)) == Everywhere(t, BytesUnder(h))
    {
      AdvanceKeeps(t, sec, BytesUnder(h));
    }
  }

  lemma RecordKeepsUpdates(t: Tracker, p: Packet, src: string, dst: string)
    requires t.wheel.slots > FLOW_TIMEOUT && UpdatesExact(t)
    ensures UpdatesExact(Record(t, p, src, dst))
  {
    var i := FindFlow(t.wheel.live, p.hv, p.ssn);
    if i < |t.wheel.live| {
      AccountKeepsUpdates(t, i, p);
    } else {
      forall h: string
        ensures Everywhere(Create(t, p, src, dst), BytesUnder(h)) == Everywhere(t, BytesUnder(h))
      {
        CreateAdds(t, p, src, dst, BytesUnder(h));
      }
      AccountKeepsUpdates(Create(t, p, src, dst), 0, p);
    }
  }

  lemma {:induction false} RunKeepsUpdates(t: Tracker, s: seq<Arrival>)
    requires t.wheel.slots > FLOW_TIMEOUT && UpdatesExact(t)
    ensures UpdatesExact(ReceiveAll(t, s))
    decreases |s|
  {
    if s == [] {
    } else {
      AdvanceKeepsUpdates(t, s[0].p.sec);
      if s[0].ip {
        RecordKeepsUpdates(Advance(t, s[0].p.sec), s[0].p, s[0].src, s[0].dst);
      }
      RunKeepsUpdates(Receive(t, s[0]), s[1..]);
    }
  }

  /** After every stream, the byte map holds for each hash the bytes of all flows ever created with it. */
  lemma UpdateMapExact(s: seq<Arrival>)
    ensures UpdatesExact(ReceiveAll(EMPTY, s))
  {
    hide ReceiveAll, Everywhere;
    forall h: string
      ensures Everywhere(EMPTY, BytesUnder(h)) == 0
    {
      EmptyIsZero(BytesUnder(h));
    }
    RunKeepsUpdates(EMPTY, s);
  }
}
