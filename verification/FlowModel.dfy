/** The flow tracker as a state machine over values: one step for each packet received. */
module FlowModel {
  import opened Basics
  import opened TimingWheel

  const FLOW_TIMEOUT: nat := 600
  const FLOW_SLOTS: nat := 3600

  datatype Dir = L2R | R2L

  datatype Packet = Packet(sec: int, dir: Dir, len: nat, hv: nat, hex: string, ssn: Bytes, proto: string,
                           srcAddr: string, dstAddr: string, hasPort: bool, srcPort: nat, dstPort: nat)

  /** A packet as it reaches the tracker: whether its event is an IP event, and the names that its
      two addresses resolve to at that moment (empty if none). */
  datatype Arrival = Arrival(p: Packet, ip: bool, src: string, dst: string)

  /** The fields of a flow.  `hist` and `names` are history: the packets accounted to it, and what the
      source and destination of the first of them resolved to. */
  datatype FlowInfo = FlowInfo(hv: nat, ssn: Bytes, hex: string, proto: string,
                               created: int, refreshed: int, updated: int, initDir: Dir,
                               lAddr: string, rAddr: string, lPort: nat, rPort: nat, lName: string, rName: string,
                               lPkt: nat, rPkt: nat, lSize: nat, rSize: nat,
                               hist: seq<Packet>, names: (string, string))

  datatype Message =
    | FlowNew(ts: int, srcAddr: string, dstAddr: string, hash: string,
              srcName: Option<string>, dstName: Option<string>, proto: string, ports: Option<(nat, nat)>)
    | FlowLog(ts: int, proto: string, initTs: int, lastTs: int, hash: string,
              cAddr: string, sAddr: string, cPort: nat, sPort: nat, cSize: nat, sSize: nat, cPkt: nat, sPkt: nat,
              cName: Option<string>, sName: Option<string>)

  /** The arrival that created a flow: its packet and what the packet's ends resolved to. */
  datatype Birth = Birth(p: Packet, src: string, dst: string)

  /** `log` is what has been emitted.  `logged`, `lost` and `births` are history: the flows deleted
      with a message, the flows that `put` refused, and every flow created. */
  datatype Tracker = Tracker(lastTs: int, wheel: Wheel<FlowInfo>, updates: map<string, nat>, log: seq<Message>,
                             logged: seq<FlowInfo>, lost: seq<FlowInfo>, births: seq<Birth>)

  // ------------------------------------------------------------------- a flow

  function NewFlow(p: Packet, src: string, dst: string): FlowInfo {
    var l2r := p.dir == L2R;
    FlowInfo(p.hv, p.ssn, p.hex, p.proto, p.sec, p.sec, p.sec, p.dir,
             if l2r then p.srcAddr else p.dstAddr, if l2r then p.dstAddr else p.srcAddr,
             if l2r then p.srcPort else p.dstPort, if l2r then p.dstPort else p.srcPort,
             if l2r then src else dst, if l2r then dst else src,
             0, 0, 0, 0, [], (src, dst))
  }

  function UpdateFlow(f: FlowInfo, p: Packet): FlowInfo {
    var g := f.(updated := p.sec, hist := f.hist + [p]);
    match p.dir
    case L2R => g.(lPkt := f.lPkt + 1, lSize := f.lSize + p.len)
    case R2L => g.(rPkt := f.rPkt + 1, rSize := f.rSize + p.len)
  }

  function Refresh(f: FlowInfo, now: int): FlowInfo {
    f.(refreshed := now)
  }

  function Remain(f: FlowInfo): (r: nat)
    ensures r > 0 <==> f.refreshed < f.updated
  {
    if f.refreshed <= f.updated then f.updated - f.refreshed else 0
  }

  function LogMessage(f: FlowInfo): Message {
    match f.initDir
    case L2R =>
      FlowLog(f.created, f.proto, f.created, f.updated, f.hex,
              f.lAddr, f.rAddr, f.lPort, f.rPort, f.lSize, f.rSize, f.lPkt, f.rPkt,
              NonEmpty(f.lName), NonEmpty(f.rName))
    case R2L =>
      FlowLog(f.created, f.proto, f.created, f.updated, f.hex,
              f.rAddr, f.lAddr, f.rPort, f.lPort, f.rSize, f.lSize, f.rPkt, f.lPkt,
              NonEmpty(f.rName), NonEmpty(f.lName))
  }

  function NewMessage(p: Packet, src: string, dst: string): Message {
    FlowNew(p.sec, p.srcAddr, p.dstAddr, p.hex, NonEmpty(src), NonEmpty(dst), p.proto,
            if p.hasPort then Some((p.srcPort, p.dstPort)) else None)
  }

  // -------------------------------------------------------------- the tracker

  const EMPTY: Tracker := Tracker(0, New(FLOW_SLOTS), map[], [], [], [], [])

  function DrainOne(t: Tracker, now: int): (t': Tracker)
    requires t.wheel.expired != []
    ensures t'.wheel.expired == t.wheel.expired[1..]
  {
    var f := t.wheel.expired[0].item;
    var w := Pop(t.wheel);
    if Remain(f) > 0 then
      t.(wheel := Put(w, Remain(f), Refresh(f, now)),
         lost := if Remain(f) < w.slots then t.lost else t.lost + [f])
    else
      t.(wheel := w, log := t.log + [LogMessage(f)], logged := t.logged + [f])
  }

  /** Empties the expired chain: flows seen since their last refresh get another lease. */
  function Drain(t: Tracker, now: int): (t': Tracker)
    ensures t'.wheel.slots == t.wheel.slots && t'.wheel.tick == t.wheel.tick
    decreases |t.wheel.expired|
  {
    if t.wheel.expired == [] then t
    else Drain(DrainOne(t, now), now)
  }

  function Advance(t: Tracker, sec: int): Tracker
    requires t.wheel.slots > 0
  {
    if t.lastTs == 0 then t.(lastTs := sec)
    else if t.lastTs < sec then
      Drain(t.(lastTs := sec, wheel := Prog(t.wheel, sec - t.lastTs)), sec)
    else t
  }

  /** The live index of the newest flow with this hash and session label, or |s|. */
  function FindFlow(s: seq<Timed<FlowInfo>>, hv: nat, ssn: Bytes): (i: nat)
    ensures i <= |s|
    ensures i < |s| ==> s[i].item.hv == hv && s[i].item.ssn == ssn
    ensures forall j | 0 <= j < i :: s[j].item.hv != hv || s[j].item.ssn != ssn
  {
    if s == [] || (s[0].item.hv == hv && s[0].item.ssn == ssn) then 0
    else 1 + FindFlow(s[1..], hv, ssn)
  }

  function Create(t: Tracker, p: Packet, src: string, dst: string): Tracker {
    t.(wheel := Put(t.wheel, FLOW_TIMEOUT, NewFlow(p, src, dst)),
       log := t.log + [NewMessage(p, src, dst)],
       births := t.births + [Birth(p, src, dst)])
  }

  function Account(t: Tracker, i: nat, p: Packet): Tracker
    requires i < |t.wheel.live|
  {
    var f := t.wheel.live[i].item;
    var sum := if f.hex in t.updates then t.updates[f.hex] else 0;
    t.(wheel := TimingWheel.Update(t.wheel, i, UpdateFlow(f, p)), updates := t.updates[f.hex := sum + p.len])
  }

  function Record(t: Tracker, p: Packet, src: string, dst: string): Tracker
    requires t.wheel.slots > FLOW_TIMEOUT
  {
    var i := FindFlow(t.wheel.live, p.hv, p.ssn);
    if i < |t.wheel.live| then Account(t, i, p)
    else Account(Create(t, p, src, dst), 0, p)
  }

  function Receive(t: Tracker, a: Arrival): (t': Tracker)
    requires t.wheel.slots > FLOW_TIMEOUT
    ensures t'.wheel.slots == t.wheel.slots
  {
    var t1 := Advance(t, a.p.sec);
    if a.ip then Record(t1, a.p, a.src, a.dst) else t1
  }

  function ReceiveAll(t: Tracker, s: seq<Arrival>): Tracker
    requires t.wheel.slots > FLOW_TIMEOUT
    decreases |s|
  {
    if s == [] then t else ReceiveAll(Receive(t, s[0]), s[1..])
  }
}
