/** Leases: how far the clock may go back before a flow is lost, and how far apart two flows of one
    key are created. */
module FlowLeases {
  import opened TimingWheel
  import opened FlowModel
  import opened FlowLaws
  import opened FlowLives

  /** No packet time is below `low`, or more than `b` seconds behind the latest so far. */
  ghost predicate Within(s: seq<Arrival>, low: int, b: nat, latest: int) {
    s != [] ==>
      && s[0].p.sec >= low && s[0].p.sec >= latest - b
      && Within(s[1..], low, b, if s[0].p.sec > latest then s[0].p.sec else latest)
  }

  /** Packet times are positive and never decrease. */
  ghost predicate Monotone(s: seq<Arrival>, from: int) {
    Within(s, 1, 0, from)
  }

  /** A clock this far behind can make a first lease as long as a turn of the wheel. */
  const SKEW_LIMIT: nat := 3000

  /** The length of the lease that a flow in the table is on, in seconds. */
  function Lease(t: Tracker, x: Timed<FlowInfo>): int {
    x.due - t.wheel.tick + t.lastTs - x.item.refreshed
  }

  ghost predicate LeaseOk(t: Tracker, x: Timed<FlowInfo>, b: nat) {
    && x.item.refreshed <= t.lastTs && x.item.updated <= t.lastTs
    && Remain(x.item) <= Lease(t, x) <= 600 + b
  }

  /** No lease is longer than the first lease of a flow whose first packet came `b` seconds late. */
  ghost predicate Leased(t: Tracker, b: nat) {
    && t.wheel.slots == FLOW_SLOTS && Inv(t.wheel) && 0 <= t.lastTs
    && (t.lastTs == 0 ==> t.wheel.live == [] && t.wheel.expired == [])
    && (forall x | x in t.wheel.live :: LeaseOk(t, x, b))
    && (forall x | x in t.wheel.expired :: LeaseOk(t, x, b))
    && t.lost == []
  }

  /** A renewed lease is never longer than the lease it follows, so the wheel takes it if it took that. */
  lemma RenewalNeverLonger(t: Tracker, b: nat)
    requires Leased(t, b) && t.wheel.expired != [] && b < SKEW_LIMIT
    ensures var x := t.wheel.expired[0];
            var t' := DrainOne(t, t.lastTs);
            Remain(x.item) > 0 ==>
              && t'.wheel.live != [] && t'.wheel.live[1..] == t.wheel.live && t'.lost == t.lost
              && t'.wheel.live[0].item == Refresh(x.item, t.lastTs)
              && Lease(t', t'.wheel.live[0]) == Remain(x.item) <= Lease(t, x) <= 600 + b
    ensures Leased(DrainOne(t, t.lastTs), b)
  {
    assert t.wheel.expired[0] in t.wheel.expired;
    forall x | x in t.wheel.expired[1..]
      ensures LeaseOk(DrainOne(t, t.lastTs), x, b)
    {
      assert x in t.wheel.expired && LeaseOk(t, x, b);
    }
  }

  lemma {:induction false} DrainLeased(t: Tracker, b: nat)
    requires Leased(t, b) && t.lastTs != 0 && b < SKEW_LIMIT
    ensures Leased(Drain(t, t.lastTs), b)
    ensures forall x | x in t.wheel.live :: x in Drain(t, t.lastTs).wheel.live
    decreases |t.wheel.expired|
  {
    if t.wheel.expired == [] {
    } else {
      RenewalNeverLonger(t, b);
      var t' := DrainOne(t, t.lastTs);
      forall x | x in t.wheel.live
        ensures x in t'.wheel.live
      {
      }
      DrainLeased(t', b);
    }
  }

  lemma ProgLeased(t: Tracker, sec: int, b: nat)
    requires Leased(t, b) && 0 < t.lastTs < sec
    ensures var t' := t.(lastTs := sec, wheel := Prog(t.wheel, sec - t.lastTs));
            Leased(t', b) && forall x :: x in t'.wheel.live <==> x in t.wheel.live && x.due >= t'.wheel.tick
  {
    var d := sec - t.lastTs;
    var t' := t.(lastTs := sec, wheel := Prog(t.wheel, d));
    ProgKeepsInv(t.wheel, d);
    ProgExact(t.wheel, d);
    hide Prog, Inv, Remain;
    forall x
      ensures x in t'.wheel.live <==> x in t.wheel.live && x.due >= t'.wheel.tick
      ensures x in t'.wheel.live || x in t'.wheel.expired ==> LeaseOk(t', x, b)
    {
      DueFromMember(t.wheel.live, t.wheel.tick + d, x);
      ProgMembers(t.wheel, d, x);
      if x in t.wheel.live || x in t.wheel.expired {
        assert LeaseOk(t, x, b) && Lease(t', x) == Lease(t, x);
      }
    }
  }

  lemma AdvanceLeased(t: Tracker, sec: int, b: nat)
    requires Leased(t, b) && 0 < sec && b < SKEW_LIMIT
    ensures Leased(Advance(t, sec), b) && Advance(t, sec).lastTs == if t.lastTs < sec then sec else t.lastTs
    ensures Advance(t, sec).wheel.expired == [] || t.wheel.expired != []
    ensures forall x | x in t.wheel.live && x.due >= Advance(t, sec).wheel.tick :: x in Advance(t, sec).wheel.live
    ensures t.lastTs != 0 ==> Advance(t, sec).wheel.tick - t.wheel.tick == Advance(t, sec).lastTs - t.lastTs
  {
    if t.lastTs != 0 && t.lastTs < sec {
      var t1 := t.(lastTs := sec, wheel := Prog(t.wheel, sec - t.lastTs));
      ProgLeased(t, sec, b);
      DrainLeased(t1, b);
      DrainFrame(t1, sec);
    }
  }

  lemma AccountLeased(t: Tracker, i: nat, p: Packet, b: nat)
    requires Leased(t, b) && p.sec <= t.lastTs && i < |t.wheel.live|
    ensures Leased(Account(t, i, p), b)
  {
    var t' := Account(t, i, p);
    forall j | 0 <= j < |t'.wheel.live|
      ensures LeaseOk(t', t'.wheel.live[j], b)
    {
      assert t.wheel.live[j] in t.wheel.live;
    }
  }

  lemma CreateLeased(t: Tracker, p: Packet, src: string, dst: string, b: nat)
    requires Leased(t, b) && t.lastTs > 0 && t.lastTs - b <= p.sec <= t.lastTs
    ensures Leased(Create(t, p, src, dst), b)
  {
  }

  lemma RecordLeased(t: Tracker, p: Packet, src: string, dst: string, b: nat)
    requires Leased(t, b) && t.lastTs > 0 && t.lastTs - b <= p.sec <= t.lastTs
    ensures Leased(Record(t, p, src, dst), b)
  {
    var i := FindFlow(t.wheel.live, p.hv, p.ssn);
    if i < |t.wheel.live| {
      AccountLeased(t, i, p, b);
    } else {
      CreateLeased(t, p, src, dst, b);
      AccountLeased(Create(t, p, src, dst), 0, p, b);
    }
  }

  /** With positive times less than 3000 seconds behind the latest, no lease is as long as a turn of
      the wheel, `put` never refuses a flow, and no flow is lost. */
  lemma {:induction false} SmallSkewKeepsFlows(t: Tracker, s: seq<Arrival>, low: int, b: nat)
    requires Leased(t, b) && Within(s, low, b, t.lastTs) && 0 < low && b < SKEW_LIMIT
    ensures Leased(ReceiveAll(t, s), b) && ReceiveAll(t, s).lost == []
    decreases |s|
  {
    if s == [] {
    } else {
      AdvanceLeased(t, s[0].p.sec, b);
      var t1 := Advance(t, s[0].p.sec);
      if s[0].ip {
        RecordLeased(t1, s[0].p, s[0].src, s[0].dst, b);
      }
      SmallSkewKeepsFlows(Receive(t, s[0]), s[1..], low, b);
    }
  }

  /** In particular none is lost with positive times that never decrease, and leases are at most 600. */
  lemma NoFlowLost(t: Tracker, s: seq<Arrival>)
    requires Leased(t, 0) && Monotone(s, t.lastTs)
    ensures Leased(ReceiveAll(t, s), 0) && ReceiveAll(t, s).lost == []
  {
    hide Leased, ReceiveAll;
    assert Within(s, 1, 0, t.lastTs);
    SmallSkewKeepsFlows(t, s, 1, 0);
  }

  // ------------------------------------------------------------ no early rebirth

  /** `x` is of the key born as `b` and stays for at least the first lease of that birth. */
  ghost predicate Outlasts(t: Tracker, x: Timed<FlowInfo>, b: Birth) {
    && x.item.hv == b.p.hv && x.item.ssn == b.p.ssn
    && x.due - t.wheel.tick + t.lastTs >= b.p.sec + 600
  }

  ghost predicate FirstLeaseLive(t: Tracker, b: Birth) {
    t.lastTs <= b.p.sec + 600 ==> exists x :: x in t.wheel.live && Outlasts(t, x, b)
  }

  /** Births of one key come more than 600 seconds apart, less the skew of the clock. */
  ghost predicate Spaced(s: seq<Birth>, skew: nat) {
    forall i, j | 0 <= i < j < |s| && s[i].p.hv == s[j].p.hv && s[i].p.ssn == s[j].p.ssn ::
      s[j].p.sec + skew > s[i].p.sec + 600
  }

  ghost predicate BirthsOk(t: Tracker, skew: nat) {
    && Spaced(t.births, skew)
    && (t.lastTs == 0 ==> t.births == [])
    && forall b | b in t.births :: FirstLeaseLive(t, b)
  }

  lemma AdvanceBirths(t: Tracker, sec: int, skew: nat)
    requires Leased(t, skew) && BirthsOk(t, skew) && 0 < sec && skew < SKEW_LIMIT
    ensures BirthsOk(Advance(t, sec), skew)
  {
    var t' := Advance(t, sec);
    DrainKeepsMap(t, sec);
    AdvanceLeased(t, sec, skew);
    forall b | b in t'.births
      ensures FirstLeaseLive(t', b)
    {
      assert FirstLeaseLive(t, b);
      if t'.lastTs <= b.p.sec + 600 {
        var x :| x in t.wheel.live && Outlasts(t, x, b);
        assert x in t'.wheel.live && Outlasts(t', x, b);
      }
    }
  }

  lemma FoundIfLive(s: seq<Timed<FlowInfo>>, x: Timed<FlowInfo>)
    requires x in s
    ensures FindFlow(s, x.item.hv, x.item.ssn) < |s|
  {
    var j :| 0 <= j < |s| && s[j] == x;
  }

  lemma AccountBirths(t: Tracker, i: nat, p: Packet, skew: nat)
    requires BirthsOk(t, skew) && i < |t.wheel.live|
    ensures BirthsOk(Account(t, i, p), skew)
  {
    var t' := Account(t, i, p);
    forall b | b in t'.births
      ensures FirstLeaseLive(t', b)
    {
      assert FirstLeaseLive(t, b);
      if t.lastTs <= b.p.sec + 600 {
        var x :| x in t.wheel.live && Outlasts(t, x, b);
        var j :| 0 <= j < |t.wheel.live| && t.wheel.live[j] == x;
        assert Outlasts(t', t'.wheel.live[j], b) && t'.wheel.live[j] in t'.wheel.live;
      }
    }
  }

  lemma CreateBirths(t: Tracker, p: Packet, src: string, dst: string, skew: nat)
    requires t.wheel.slots > FLOW_TIMEOUT && BirthsOk(t, skew) && t.lastTs > 0
    requires t.lastTs - skew <= p.sec <= t.lastTs
    requires FindFlow(t.wheel.live, p.hv, p.ssn) == |t.wheel.live|
    ensures BirthsOk(Create(t, p, src, dst), skew)
  {
    var t' := Create(t, p, src, dst);
    forall b | b in t.births
      ensures FirstLeaseLive(t', b)
      ensures b.p.hv == p.hv && b.p.ssn == p.ssn ==> p.sec + skew > b.p.sec + 600
    {
      assert FirstLeaseLive(t, b);
      if t.lastTs <= b.p.sec + 600 {
        var x :| x in t.wheel.live && Outlasts(t, x, b);
        FoundIfLive(t.wheel.live, x);
        assert x in t'.wheel.live && Outlasts(t', x, b);
      }
    }
    var b := Birth(p, src, dst);
    assert Outlasts(t', t'.wheel.live[0], b) && t'.wheel.live[0] in t'.wheel.live;
    assert FirstLeaseLive(t', b);
  }

  /** No (hash, session label) is announced again within 600 seconds of its last announcement, less
      as many as the clock may be behind. */
  lemma {:induction false} NoEarlyRebirth(t: Tracker, s: seq<Arrival>, low: int, skew: nat)
    requires Leased(t, skew) && BirthsOk(t, skew) && Within(s, low, skew, t.lastTs) && 0 < low && skew < SKEW_LIMIT
    ensures BirthsOk(ReceiveAll(t, s), skew) && Spaced(ReceiveAll(t, s).births, skew)
    decreases |s|
  {
    if s == [] {
    } else {
      var p := s[0].p;
      AdvanceLeased(t, p.sec, skew);
      AdvanceBirths(t, p.sec, skew);
      var t1 := Advance(t, p.sec);
      if s[0].ip {
        RecordLeased(t1, p, s[0].src, s[0].dst, skew);
        var i := FindFlow(t1.wheel.live, p.hv, p.ssn);
        if i < |t1.wheel.live| {
          AccountBirths(t1, i, p, skew);
        } else {
          CreateBirths(t1, p, s[0].src, s[0].dst, skew);
          AccountBirths(Create(t1, p, s[0].src, s[0].dst), 0, p, skew);
        }
      }
      NoEarlyRebirth(Receive(t, s[0]), s[1..], low, skew);
    }
  }

  lemma EmptyTracker(skew: nat)
    ensures Leased(EMPTY, skew) && BirthsOk(EMPTY, skew)
    ensures OneFlowPerKey(EMPTY) && LogExact(EMPTY) && AllFaithful(EMPTY)
  {
    assert EMPTY.wheel.live == EMPTY.wheel.expired == [];
  }

  /** The births are those that flow.new messages announced, in order. */
  ghost predicate Announced(t: Tracker) {
    && |NewsOf(t.log)| == |t.births|
    && forall i | 0 <= i < |t.births| :: Announces(NewsOf(t.log)[i], t.births[i])
  }

  lemma BirthsAreNews(t: Tracker)
    requires LogExact(t)
    ensures Announced(t)
  {
  }

  /** From the start, under such a clock: every flow announced is live or has been logged, each key
      has one live flow, and announcements of a key are spaced. */
  lemma FlowsAccountedFor(s: seq<Arrival>, low: int, skew: nat)
    requires Within(s, low, skew, 0) && 0 < low && skew < SKEW_LIMIT
    ensures var t := ReceiveAll(EMPTY, s);
            && |NewsOf(t.log)| == |LogsOf(t.log)| + |t.wheel.live|
            && OneFlowPerKey(t) && Spaced(t.births, skew) && Announced(t)
  {
    hide ReceiveAll, LogExact, Leased, BirthsOk;
    EmptyTracker(skew);
    SmallSkewKeepsFlows(EMPTY, s, low, skew);
    NewEqualsLoggedPlusLive(s);
    RunOneFlow(s);
    NoEarlyRebirth(EMPTY, s, low, skew);
    RunLogExact(s);
    BirthsAreNews(ReceiveAll(EMPTY, s));
  }

  /** On such a clock the flow.log messages and the live flows tell of everything received. */
  lemma NothingUnreported(s: seq<Arrival>, low: int, skew: nat)
    requires Within(s, low, skew, 0) && 0 < low && skew < SKEW_LIMIT
    ensures var t := ReceiveAll(EMPTY, s);
            && SumMessages(LogsOf(t.log), LOGGED_PACKETS) + Sum(t.wheel.live, Lift(PACKETS)) == Received(s, ONE)
            && SumMessages(LogsOf(t.log), LOGGED_BYTES) + Sum(t.wheel.live, Lift(BYTES)) == Received(s, LENGTH)
  {
    hide ReceiveAll, Leased, LogsOf;
    EmptyTracker(skew);
    SmallSkewKeepsFlows(EMPTY, s, low, skew);
    TrafficReported(s);
  }

  // -------------------------------------------------------- exactly when one is lost

  lemma {:induction false} SingleBatch<T>(x: Timed<T>, from: nat, k: nat)
    ensures Batches([x], from, k) == if from <= x.due < from + k then [x] else []
    decreases k
  {
    if k == 0 {
    } else {
      SingleBatch(x, from, k - 1);
      var none: seq<Timed<T>> := [x][1..];
      assert none == [] && Reversed(none) == [] && Reversed([x]) == [x];
      assert DueAt([x], from + k - 1) == if x.due == from + k - 1 then [x] else [];
    }
  }

  /** What any advance does to a wheel with one item. */
  lemma OnlyOne(w: Wheel<FlowInfo>, k: nat)
    requires Window(w) && |w.live| == 1 && w.expired == []
    ensures if w.live[0].due < w.tick + k then Prog(w, k).live == [] && Prog(w, k).expired == w.live
            else Prog(w, k).live == w.live && Prog(w, k).expired == []
  {
    ProgExact(w, k);
    SingleBatch(w.live[0], w.tick, k);
    assert w.live == [w.live[0]];
    if w.live[0].due < w.tick + k {
      DueFromNone(w.live, w.tick + k);
    } else {
      DueFromAll(w.live, w.tick + k);
    }
  }

  /** The table holds one flow and nothing else, created by a packet like `p` of second `first` and
      last seen at second `last`. */
  ghost predicate OneFlow(t: Tracker, p: Packet, first: int, last: int) {
    && t.wheel.slots == FLOW_SLOTS && Window(t.wheel) && t.wheel.expired == [] && t.lost == []
    && |t.wheel.live| == 1
    && var f := t.wheel.live[0].item;
       f.hv == p.hv && f.ssn == p.ssn && f.refreshed == first && f.updated == last
  }

  lemma FirstFlow(t: Tracker, p: Packet)
    requires t.wheel == New(FLOW_SLOTS) && t.lost == [] && (t.lastTs == 0 || p.sec <= t.lastTs)
    ensures var t' := Receive(t, Arrival(p, true, "", ""));
            && OneFlow(t', p, p.sec, p.sec) && t'.lastTs == (if t.lastTs == 0 then p.sec else t.lastTs)
            && t'.wheel.tick == 0 && t'.wheel.live[0].due == FLOW_TIMEOUT
  {
  }

  /** Time passes within the lease of the flow. */
  lemma QuietAdvance(t: Tracker, p: Packet, first: int, last: int, sec: int)
    requires OneFlow(t, p, first, last) && t.lastTs <= sec
    requires t.lastTs == 0 || t.wheel.tick + (sec - t.lastTs) <= t.wheel.live[0].due
    ensures var t' := Advance(t, sec);
            && OneFlow(t', p, first, last) && t'.lastTs == sec && t'.wheel.live == t.wheel.live
            && t'.wheel.tick == t.wheel.tick + if t.lastTs == 0 then 0 else sec - t.lastTs
  {
    if 0 != t.lastTs < sec {
      OnlyOne(t.wheel, sec - t.lastTs);
      var t1 := t.(lastTs := sec, wheel := Prog(t.wheel, sec - t.lastTs));
      assert t1.wheel.tick == t.wheel.tick + (sec - t.lastTs) && t1.wheel.slots == t.wheel.slots;
      assert OneFlow(t1, p, first, last);
      hide Prog, DrainOne, Window, OneFlow;
      assert Drain(t1, sec) == t1;
    }
  }

  /** The flow is seen again in time, at second `sec`. */
  lemma SeenAgain(t: Tracker, p: Packet, first: int, last: int, sec: int)
    requires OneFlow(t, p, first, last) && t.lastTs <= sec
    requires t.lastTs == 0 || t.wheel.tick + (sec - t.lastTs) <= t.wheel.live[0].due
    ensures var t' := Receive(t, Arrival(p.(sec := sec), true, "", ""));
            && OneFlow(t', p, first, sec) && t'.lastTs == sec && t'.wheel.live[0].due == t.wheel.live[0].due
            && t'.wheel.tick == t.wheel.tick + if t.lastTs == 0 then 0 else sec - t.lastTs
  {
    hide Advance;
    QuietAdvance(t, p, first, last, sec);
  }

  /** The wheel refuses a renewal as long as its own turn, and the flow is lost. */
  lemma LongRenewalLost(t: Tracker, p: Packet, first: int, last: int, sec: int)
    requires OneFlow(t, p, first, last) && last - first >= FLOW_SLOTS
    requires t.lastTs != 0 && t.wheel.live[0].due < t.wheel.tick + (sec - t.lastTs)
    ensures Receive(t, Arrival(p.(sec := sec), false, "", "")).lost == [t.wheel.live[0].item]
  {
    OnlyOne(t.wheel, sec - t.lastTs);
    hide Prog, Window;
    var t1 := t.(lastTs := sec, wheel := Prog(t.wheel, sec - t.lastTs));
    var t2 := DrainOne(t1, sec);
    assert t1.wheel.expired == t.wheel.live && t2.lost == [t.wheel.live[0].item];
    hide DrainOne, Remain;
    assert t2.wheel.expired == [] && Drain(t2, sec) == t2;
    assert Advance(t, sec) == Drain(t1, sec) == t2;
  }

  lemma ThreeArrivals(t: Tracker, a: Arrival, b: Arrival, c: Arrival)
    requires t.wheel.slots > FLOW_TIMEOUT
    ensures ReceiveAll(t, [a, b, c]) == Receive(Receive(Receive(t, a), b), c)
  {
    hide Receive;
    var t1 := Receive(t, a);
    var t2 := Receive(t1, b);
    assert [a, b, c][1..] == [b, c] && [b, c][1..] == [c] && [c][1..] == [];
    assert ReceiveAll(t2, [c]) == Receive(t2, c);
    assert ReceiveAll(t1, [b, c]) == ReceiveAll(t2, [c]);
  }

  lemma ClockStarts(a: Arrival, s: seq<Arrival>)
    requires !a.ip
    ensures Receive(EMPTY, a) == EMPTY.(lastTs := a.p.sec)
    ensures ReceiveAll(EMPTY, [a] + s) == ReceiveAll(Receive(EMPTY, a), s)
  {
    assert ([a] + s)[1..] == s;
  }

  lemma LateStreamWithin(w: Arrival, x: Arrival, y: Arrival, z: Arrival, low: int, b: nat)
    requires 0 < low == x.p.sec && w.p.sec == low + b && w.p.sec <= y.p.sec <= z.p.sec
    ensures Within([w] + [x, y, z], low, b, 0)
  {
    assert [x, y, z][1..] == [y, z] && [y, z][1..] == [z] && [z][1..] == [];
    assert Within([z], low, b, y.p.sec) && Within([y, z], low, b, w.p.sec);
    assert Within([x, y, z], low, b, w.p.sec);
    assert ([w] + [x, y, z])[1..] == [x, y, z];
  }

  /** A flow created by a packet 3000 seconds or more behind the clock is lost if it is last seen as
      its first lease runs out. */
  lemma ClockBackLosesFlow(p: Packet, low: int, b: nat)
    requires 0 < low && b >= SKEW_LIMIT
    ensures var s := [Arrival(p.(sec := low + b), false, "", "")]
                     + [Arrival(p.(sec := low), true, "", ""), Arrival(p.(sec := low + b + 600), true, "", ""),
                        Arrival(p.(sec := low + b + 601), false, "", "")];
            Within(s, low, b, 0) && |ReceiveAll(EMPTY, s).lost| == 1
  {
    hide Receive, ReceiveAll, OneFlow;
    var w, x := Arrival(p.(sec := low + b), false, "", ""), Arrival(p.(sec := low), true, "", "");
    var y, z := Arrival(p.(sec := low + b + 600), true, "", ""), Arrival(p.(sec := low + b + 601), false, "", "");
    LateStreamWithin(w, x, y, z, low, b);
    ClockStarts(w, [x, y, z]);
    var t := Receive(EMPTY, w);
    ThreeArrivals(t, x, y, z);
    FirstFlow(t, x.p);
    SeenAgain(Receive(t, x), x.p, low, low, low + b + 600);
    LongRenewalLost(Receive(Receive(t, x), y), x.p, low, low + b + 600, low + b + 601);
  }

  /** A flow of second 0, which the clock takes for "no packet yet", is lost if it is next seen an hour
      later, although no time decreases. */
  lemma ZeroTimeLosesFlow(p: Packet)
    ensures var s := [Arrival(p.(sec := 0), true, "", ""), Arrival(p.(sec := 3600), true, "", ""),
                      Arrival(p.(sec := 4201), false, "", "")];
            Within(s, 0, 0, 0) && |ReceiveAll(EMPTY, s).lost| == 1
  {
    var x, y := Arrival(p.(sec := 0), true, "", ""), Arrival(p.(sec := 3600), true, "", "");
    var z := Arrival(p.(sec := 4201), false, "", "");
    assert [x, y, z][1..] == [y, z] && [y, z][1..] == [z] && [z][1..] == [];
    assert Within([z], 0, 0, 3600) && Within([y, z], 0, 0, 0);
    ThreeArrivals(EMPTY, x, y, z);
    FirstFlow(EMPTY, x.p);
    SeenAgain(Receive(EMPTY, x), x.p, 0, 0, 3600);
    LongRenewalLost(Receive(Receive(EMPTY, x), y), x.p, 0, 3600, 4201);
  }

  lemma {:induction false} WithinWider(s: seq<Arrival>, low: int, b: nat, low': int, b': nat, latest: int)
    requires Within(s, low, b, latest) && low' <= low && b <= b'
    ensures Within(s, low', b', latest)
  {
    if s == [] {
    } else {
      WithinWider(s[1..], low, b, low', b', if s[0].p.sec > latest then s[0].p.sec else latest);
    }
  }

  /** A tracker whose packet times are at least `low` and at most `b` seconds behind the latest never
      loses a flow, if and only if all times are positive and fewer than 3000 seconds behind. */
  lemma NoFlowLostIff(low: int, b: nat)
    ensures 0 < low && b < SKEW_LIMIT
            <==> forall s: seq<Arrival> :: Within(s, low, b, 0) ==> ReceiveAll(EMPTY, s).lost == []
  {
    hide ReceiveAll, Within, Leased;
    var p := Packet(0, L2R, 0, 0, "", [], "", "", "", false, 0, 0);
    if low <= 0 {
      ZeroTimeLosesFlow(p);
      var s := [Arrival(p.(sec := 0), true, "", ""), Arrival(p.(sec := 3600), true, "", ""),
                Arrival(p.(sec := 4201), false, "", "")];
      WithinWider(s, 0, 0, low, b, 0);
      assert ReceiveAll(EMPTY, s).lost != [];
    } else if b >= SKEW_LIMIT {
      ClockBackLosesFlow(p, low, b);
    } else {
      forall s: seq<Arrival> | Within(s, low, b, 0)
        ensures ReceiveAll(EMPTY, s).lost == []
      {
        EmptyTracker(b);
        SmallSkewKeepsFlows(EMPTY, s, low, b);
      }
    }
  }
}
