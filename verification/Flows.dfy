/** The flow tracker as the program runs it: flows that are counted in place, on the hash table. */
module Flows {
  import opened Basics
  import opened TimingWheel
  import opened LruHash
  import opened FlowModel
  import FlowLives
  import opened DnsModule
  import DnsModel

  type FlowNode = Node<Bytes, Flow>

  /** A flow is the payload of its table node. */
  class Flow {
    const hv: nat
    const key: Bytes
    const hex: string
    const proto: string
    const created: int
    const initDir: Dir
    var refreshed: int
    var updated: int
    var lAddr: string
    var rAddr: string
    var lPort: nat
    var rPort: nat
    var lName: string
    var rName: string
    var lPkt: nat
    var rPkt: nat
    var lSize: nat
    var rSize: nat
    ghost var hist: seq<Packet>
    ghost const names: (string, string)
    ghost var node: Node?<Bytes, Flow>

    ghost function State(): FlowInfo
      reads this
    {
      FlowInfo(hv, key, hex, proto, created, refreshed, updated, initDir,
               lAddr, rAddr, lPort, rPort, lName, rName, lPkt, rPkt, lSize, rSize, hist, names)
    }

    constructor (p: Packet, src: string, dst: string)
      ensures State() == NewFlow(p, src, dst)
    {
      hv, key, hex, proto := p.hv, p.ssn, p.hex, p.proto;
      created, updated, refreshed := p.sec, p.sec, p.sec;
      initDir := p.dir;
      lPkt, rPkt, lSize, rSize := 0, 0, 0, 0;
      if p.dir == L2R {
        lAddr, rAddr := p.srcAddr, p.dstAddr;
        lPort, rPort := p.srcPort, p.dstPort;
        lName, rName := src, dst;
      } else {
        rAddr, lAddr := p.srcAddr, p.dstAddr;
        rPort, lPort := p.srcPort, p.dstPort;
        rName, lName := src, dst;
      }
      hist, names, node := [], (src, dst), null;
    }

    method Update(p: Packet)
      modifies this
      ensures State() == UpdateFlow(old(State()), p) && node == old(node)
    {
      updated := p.sec;
      if p.dir == L2R {
        lPkt := lPkt + 1;
        lSize := lSize + p.len;
      } else if p.dir == R2L {
        rPkt := rPkt + 1;
        rSize := rSize + p.len;
      }
      hist := hist + [p];
    }

    method Refresh(sec: int)
      modifies this
      ensures State() == FlowModel.Refresh(old(State()), sec) && node == old(node)
    {
      refreshed := sec;
    }

    /** 0 unless a packet came after the last refresh, and else how long after it the last one came. */
    function Remain(): (r: nat)
      reads this
      ensures r == FlowModel.Remain(State())
      ensures FlowLives.Faithful(State()) ==>
                var last := hist[|hist| - 1].sec;
                if last <= refreshed then r == 0 else refreshed + r == last
    {
      if refreshed <= updated then updated - refreshed else 0
    }

    method BuildMessage() returns (m: Message)
      ensures m == LogMessage(State())
      ensures FlowLives.Faithful(State()) ==> FlowLives.TellsOf(m, State())
    {
      if FlowLives.Faithful(State()) {
        FlowLives.MessageTells(State());
      }
      match initDir
      case L2R =>
        m := FlowLog(created, proto, created, updated, hex,
                     lAddr, rAddr, lPort, rPort, lSize, rSize, lPkt, rPkt, NonEmpty(lName), NonEmpty(rName));
      case R2L =>
        m := FlowLog(created, proto, created, updated, hex,
                     rAddr, lAddr, rPort, lPort, rSize, lSize, rPkt, lPkt, NonEmpty(rName), NonEmpty(lName));
    }
  }

  // --------------------------------------------------- from nodes to their flows

  const NONE: FlowInfo := NewFlow(Packet(0, L2R, 0, 0, "", [], "", "", "", false, 0, 0), "", "")

  /** What each node's flow looks like in a snapshot of the heap. */
  function See(view: map<FlowNode, FlowInfo>): FlowNode -> FlowInfo {
    (n: FlowNode) => if n in view then view[n] else NONE
  }

  lemma {:induction false} FindSeen(s: seq<Timed<FlowNode>>, view: map<FlowNode, FlowInfo>, hv: nat, key: Bytes)
    requires forall n | n in Items(s) ::
               n in view && n.entry.Entry? && n.entry.hv == view[n].hv && n.entry.key == view[n].ssn
    ensures FindFlow(MapItems(s, See(view)), hv, key) == FirstMatch(Items(s), hv, key)
  {
    if s == [] {
    } else {
      assert Items(s)[0] in Items(s);
      assert MapItems(s, See(view))[1..] == MapItems(s[1..], See(view)) && Items(s)[1..] == Items(s[1..]);
      FindSeen(s[1..], view, hv, key);
    }
  }

  lemma SeePopped(w: Wheel<FlowNode>, view: map<FlowNode, FlowInfo>)
    ensures Map(Pop(w), See(view)) == Pop(Map(w, See(view)))
    ensures w.expired != [] && w.expired[0].item in view ==>
              Map(w, See(view)).expired[0].item == view[w.expired[0].item]
    ensures Pop(w).slots == w.slots == Map(w, See(view)).slots
    ensures w.expired == [] <==> Map(w, See(view)).expired == []
    ensures w.expired == [] ==> At(Items(w.expired), 0) == null && Pop(w) == w
    ensures w.expired != [] ==> At(Items(w.expired), 0) == w.expired[0].item
  {
  }

  lemma SeeProg(w: Wheel<FlowNode>, view: map<FlowNode, FlowInfo>, k: nat)
    requires w.slots > 0
    ensures Map(TimingWheel.Prog(w, k), See(view)) == TimingWheel.Prog(Map(w, See(view)), k)
    ensures TimingWheel.Prog(w, k).slots == w.slots == Map(w, See(view)).slots
  {
    MapSweep(w, See(view), w.tick, k);
  }

  lemma SeePurged(w: Wheel<FlowNode>, view: map<FlowNode, FlowInfo>)
    requires w.slots > 0
    ensures Map(TimingWheel.Purge(w), See(view)) == TimingWheel.Purge(Map(w, See(view)))
    ensures TimingWheel.Purge(w).slots == w.slots == Map(w, See(view)).slots
  {
    MapSweep(w, See(view), 0, w.slots);
  }

  lemma SeeCreated(w: Wheel<FlowNode>, view: map<FlowNode, FlowInfo>, t: nat, n: FlowNode, f: FlowInfo)
    requires n !in Members(w.live) + Members(w.expired)
    ensures Map(TimingWheel.Put(w, t, n), See(view[n := f])) == TimingWheel.Put(Map(w, See(view)), t, f)
    ensures TimingWheel.Put(w, t, n).slots == w.slots
    ensures |Map(TimingWheel.Put(w, t, n), See(view[n := f])).live| == |TimingWheel.Put(w, t, n).live|
    ensures t < w.slots ==> TimingWheel.Put(w, t, n).live != [] && TimingWheel.Put(w, t, n).live[0].item == n
  {
    forall i | 0 <= i < |w.live|
      ensures w.live[i].item != n
    {
      assert Items(w.live)[i] in Members(w.live);
    }
    forall i | 0 <= i < |w.expired|
      ensures w.expired[i].item != n
    {
      assert Items(w.expired)[i] in Members(w.expired);
    }
    MapAgree(w, See(view), See(view[n := f]));
  }

  lemma LiveMember(w: Wheel<FlowNode>, i: nat)
    requires i < |w.live|
    ensures w.live[i].item in Members(w.live)
  {
    assert Items(w.live)[i] in Members(w.live);
  }

  lemma SeeAccounted(w: Wheel<FlowNode>, nodes: set<FlowNode>, view: map<FlowNode, FlowInfo>, i: nat, f: FlowInfo)
    requires i < |w.live| && NoDup(Items(w.live))
    requires nodes == Members(w.live) + Members(w.expired) && Members(w.live) !! Members(w.expired)
    requires w.live[i].item in view
    ensures var n := w.live[i].item;
            && n in nodes
            && |Map(w, See(view)).live| == |w.live| && Map(w, See(view)).live[i].item == view[n]
            && Map(w, See(view[n := f])) == TimingWheel.Update(Map(w, See(view)), i, f)
  {
    var n := w.live[i].item;
    assert Items(w.live)[i] in Members(w.live);
    forall j | 0 <= j < |w.live| && j != i
      ensures w.live[j].item != n
    {
      assert Items(w.live)[j] != Items(w.live)[i];
    }
    forall j | 0 <= j < |w.expired|
      ensures w.expired[j].item != n
    {
      assert Items(w.expired)[j] in Members(w.expired);
    }
    MapUpdate(w, See(view), See(view[n := f]), i);
  }

  /** Renewing the flow of the first expired node, seen from outside. */
  lemma SeeRenewed(w: Wheel<FlowNode>, view: map<FlowNode, FlowInfo>, t: nat, f: FlowInfo)
    requires w.expired != [] && NoDup(Items(w.expired)) && Members(w.live) !! Members(w.expired)
    ensures var n := w.expired[0].item;
            Map(TimingWheel.Put(Pop(w), t, n), See(view[n := f]))
            == TimingWheel.Put(Pop(Map(w, See(view))), t, f)
    ensures TimingWheel.Put(Pop(w), t, w.expired[0].item).slots == w.slots
  {
    var n := w.expired[0].item;
    assert Items(w.expired)[0] == n && n in Members(w.expired);
    forall x | x in w.live || x in w.expired[1..]
      ensures x.item != n
    {
      if x in w.live {
        var i :| 0 <= i < |w.live| && w.live[i] == x;
        assert Items(w.live)[i] == x.item && x.item in Members(w.live);
      } else {
        var i :| 0 <= i < |w.expired[1..]| && w.expired[1..][i] == x;
        assert Items(w.expired)[i + 1] == x.item;
      }
    }
    MapAgree(Pop(w), See(view), See(view[n := f]));
    SeePopped(w, view);
  }

  class ModFlow {
    const evIpv4: nat
    const evIpv6: nat
    const flowTimeout: nat := FLOW_TIMEOUT
    const table: LRUHash<Bytes, Flow>
    var lastTs: int
    var updateMap: map<string, nat>
    var log: seq<Message>                    // the messages emitted
    ghost var st: Tracker                    // the tracker this is
    ghost var view: map<FlowNode, FlowInfo>  // every flow in the table, by its node
    ghost var flows: set<Flow>

    ghost function Footprint(): set<object>
      reads this`flows, table
    {
      {this} + table.Footprint() + flows
    }

    ghost predicate Seen(n: FlowNode)
      reads this`view, this`flows, flows
    {
      && n in view && n.entry.Entry? && n.entry.item in flows
      && n.entry.item.node == n && n.entry.item.State() == view[n]
      && n.entry.hv == view[n].hv && n.entry.key == view[n].ssn
    }

    /** Everything in the table is a flow as the snapshot shows it. */
    ghost predicate TableOk()
      reads this`view, this`flows, table, table.Footprint(), flows
    {
      && this !in table.Footprint() && table.Valid()
      && forall n | n in table.nodes :: Seen(n)
    }

    ghost predicate Valid()
      reads this, Footprint()
    {
      && TableOk() && flowTimeout == FLOW_TIMEOUT
      && st.wheel == Map(table.w, See(view)) && table.w.slots == FLOW_SLOTS
      && st.lastTs == lastTs && st.updates == updateMap && st.log == log
    }

    constructor (ev4: nat, ev6: nat)
      ensures Valid() && fresh(Footprint())
      ensures st == EMPTY && evIpv4 == ev4 && evIpv6 == ev6
    {
      evIpv4, evIpv6 := ev4, ev6;
      table := new LRUHash(FLOW_SLOTS);
      lastTs, updateMap, log := 0, map[], [];
      st, view, flows := EMPTY, map[], {};
    }

    /** What the module shows to the outside is what its tracker has. */
    lemma Shown()
      requires Valid()
      ensures log == st.log && updateMap == st.updates && st.wheel.slots == FLOW_SLOTS
    {
    }

    lemma Inside()
      requires TableOk()
      ensures this !in table.Footprint() && table.Valid()
      ensures NoDup(Items(table.w.expired)) && Members(table.w.live) !! Members(table.w.expired)
    {
      table.Contents();
    }

    /** Pops a node; its flow is no longer in the table. */
    method Take() returns (node: Node?<Bytes, Flow>)
      requires TableOk()
      modifies table.Footprint()
      ensures TableOk() && table.Footprint() <= old(table.Footprint())
      ensures node == At(Items(old(table.w.expired)), 0) && table.w == TimingWheel.Pop(old(table.w))
      ensures table.nodes <= old(table.nodes)
      ensures node != null ==> node in old(table.nodes) && node !in table.Footprint() && Seen(node)
    {
      hide LRUHash.Valid, TimingWheel.Pop, Items;
      node := table.Pop();
      assert node != null ==> old(Seen(node));
    }

    method PutBack(node: FlowNode, t: nat)
      requires TableOk() && node !in table.Footprint() && Seen(node)
      modifies table.Footprint(), node
      ensures TableOk() && Seen(node)
      ensures table.w == TimingWheel.Put(old(table.w), t, node)
      ensures table.nodes <= old(table.nodes) + {node}
    {
      hide LRUHash.Valid, TimingWheel.Put;
      var ok := table.Put(t, node);
    }

    /** Refreshes the flow of `node`, and no other. */
    method Touch(node: FlowNode, now: int)
      requires TableOk() && Seen(node)
      modifies node.entry.item, this`view
      ensures TableOk()
      ensures view == old(view)[node := FlowModel.Refresh(old(view[node]), now)]
    {
      hide LRUHash.Valid, NewFlow;
      var flow := node.entry.item;
      flow.Refresh(now);
      view := view[node := flow.State()];
      forall n | n in table.nodes
        ensures Seen(n)
      {
        assert old(Seen(n)) && (n.entry.item == flow ==> n == node);
      }
    }

    /** Puts a flow that has just been popped back for as long as it has left, and refreshes it. */
    method Renew(node: FlowNode, now: int)
      requires TableOk() && node !in table.Footprint() && Seen(node)
      modifies table.Footprint(), node, node.entry.item, this`view
      ensures TableOk()
      ensures table.w == TimingWheel.Put(old(table.w), old(node.entry.item.Remain()), node)
      ensures view == old(view)[node := FlowModel.Refresh(old(view[node]), now)]
      ensures table.nodes <= old(table.nodes) + {node}
    {
      hide LRUHash.Valid, TimingWheel.Put, Flow.Remain, FlowModel.Remain, FlowModel.Refresh, FlowLives.Faithful;
      PutBack(node, node.entry.item.Remain());
      Touch(node, now);
    }

    /** Reports a flow that has just been popped, which is then gone. */
    method Report(node: FlowNode)
      requires TableOk() && Seen(node)
      modifies this`log
      ensures TableOk() && log == old(log) + [LogMessage(view[node])]
    {
      hide LRUHash.Valid, LogMessage, FlowLives.Faithful, FlowLives.TellsOf;
      var msg := node.entry.item.BuildMessage();
      log := log + [msg];
    }

    /** Renews a flow that has just been popped, or reports it. */
    method Settle(node: FlowNode, now: int)
      requires TableOk() && node !in table.Footprint() && Seen(node)
      modifies table.Footprint(), node, node.entry.item, this`view, this`log
      ensures TableOk() && table.nodes <= old(table.nodes) + {node}
      ensures var f := old(view[node]);
              if FlowModel.Remain(f) > 0 then
                && table.w == TimingWheel.Put(old(table.w), FlowModel.Remain(f), node)
                && view == old(view)[node := FlowModel.Refresh(f, now)] && log == old(log)
              else table.w == old(table.w) && view == old(view) && log == old(log) + [LogMessage(f)]
    {
      hide TableOk, LRUHash.Valid, TimingWheel.Put, LogMessage, FlowModel.Refresh, FlowModel.Remain,
           FlowLives.Faithful;
      var flow := node.entry.item;
      if flow.Remain() > 0 {
        Renew(node, now);
      } else {
        Report(node);
      }
    }

    /** One round of the drain loop: renews or logs the flow on top of the expired chain. */
    method DrainOne(now: int) returns (more: bool)
      requires Valid()
      modifies Footprint()
      ensures Valid() && table.nodes <= old(table.nodes) && flows == old(flows)
      ensures more <==> old(st.wheel.expired) != []
      ensures st == if more then FlowModel.DrainOne(old(st), now) else old(st)
    {
      hide TableOk, LRUHash.Valid, Map, See, TimingWheel.Put, TimingWheel.Pop, NoDup, Items, Members, Inv,
           LogMessage, FlowModel.Refresh, FlowModel.Remain;
      Inside();
      ghost var w, v := table.w, view;
      SeePopped(w, v);
      var node := Take();
      if node == null {
        return false;
      }
      SeeRenewed(w, v, FlowModel.Remain(v[node]), FlowModel.Refresh(v[node], now));
      Settle(node, now);
      Inside();
      st := FlowModel.DrainOne(old(st), now);
      return true;
    }

    /** The drain loop: each flow put back leaves the expired chain for good, so it ends. */
    method DrainAll(now: int)
      requires Valid()
      modifies Footprint()
      ensures Valid() && table.nodes <= old(table.nodes) && flows == old(flows)
      ensures st == Drain(old(st), now)
    {
      var more := true;
      hide Valid, LRUHash.Valid, FlowModel.DrainOne;
      while more
        invariant Valid() && table.nodes <= old(table.nodes) && flows == old(flows)
        invariant Drain(st, now) == Drain(old(st), now)
        invariant !more ==> st.wheel.expired == []
        decreases |st.wheel.expired|, more
      {
        more := DrainOne(now);
      }
    }

    method Tick(sec: int, diff: nat)
      requires Valid()
      modifies Footprint()
      ensures Valid() && table.nodes == old(table.nodes) && flows == old(flows)
      ensures st == old(st).(lastTs := sec, wheel := TimingWheel.Prog(old(st.wheel), diff))
    {
      hide LRUHash.Valid, Map, See, TimingWheel.Prog;
      SeeProg(table.w, view, diff);
      lastTs := sec;
      table.Prog(diff);
      st := st.(lastTs := sec, wheel := TimingWheel.Prog(st.wheel, diff));
    }

    /** The first half of `recv`: moves the clock and settles every flow whose lease has run out. */
    method Advance(sec: int)
      requires Valid()
      modifies Footprint()
      ensures Valid() && table.nodes <= old(table.nodes) && flows == old(flows)
      ensures st == FlowModel.Advance(old(st), sec)
    {
      hide LRUHash.Valid, Map, See, TimingWheel.Prog, Drain;
      if lastTs == 0 {
        lastTs := sec;
        st := st.(lastTs := sec);
      } else if lastTs < sec {
        var diff := sec - lastTs;
        Tick(sec, diff);
        DrainAll(sec);
      }
    }

    /** Takes note of a flow that is about to be put. */
    ghost method Adopt(node: FlowNode, flow: Flow)
      requires TableOk() && node !in table.Footprint() && flow !in flows
      requires node.entry == Entry(flow.hv, flow.key, flow) && flow.node == node
      modifies this`view, this`flows
      ensures TableOk() && Seen(node)
      ensures flows == old(flows) + {flow} && view == old(view)[node := flow.State()]
    {
      hide LRUHash.Valid, NewFlow;
      view := view[node := flow.State()];
      flows := flows + {flow};
      forall n | n in table.nodes
        ensures Seen(n)
      {
        assert old(Seen(n)) && n != node;
      }
    }

    method Insert(node: FlowNode, flow: Flow)
      requires TableOk() && node !in table.Footprint() && flow !in flows
      requires node.entry == Entry(flow.hv, flow.key, flow) && flow.node == node
      modifies table.Footprint(), node, this`view, this`flows
      ensures TableOk() && flows == old(flows) + {flow} && view == old(view)[node := old(flow.State())]
      ensures table.w == TimingWheel.Put(old(table.w), flowTimeout, node)
      ensures table.nodes <= old(table.nodes) + {node}
    {
      hide LRUHash.Valid, TimingWheel.Put, TableOk;
      Adopt(node, flow);
      PutBack(node, flowTimeout);
    }

    method NewNode(p: Packet, src: string, dst: string) returns (node: FlowNode)
      ensures fresh(node) && node.entry.Entry? && fresh(node.entry.item)
      ensures node.entry.hv == p.hv == node.entry.item.hv && node.entry.key == p.ssn == node.entry.item.key
      ensures node.entry.item.node == node && node.entry.item.State() == NewFlow(p, src, dst)
    {
      var flow := new Flow(p, src, dst);
      node := new Node(Entry(p.hv, p.ssn, flow));
      flow.node := node;
    }

    method Create(p: Packet, src: string, dst: string) returns (node: FlowNode)
      requires Valid()
      modifies Footprint()
      ensures Valid() && fresh(table.nodes - old(table.nodes)) && fresh(flows - old(flows))
      ensures table.w.live != [] && table.w.live[0].item == node && |st.wheel.live| == |table.w.live|
      ensures st == FlowModel.Create(old(st), p, src, dst)
    {
      hide LRUHash.Valid, Map, See, NoDup, Items, Members, Inv, TimingWheel.Put, NewFlow;
      table.Contents();
      node := NewNode(p, src, dst);
      var msg := FlowNew(p.sec, p.srcAddr, p.dstAddr, p.hex, NonEmpty(src), NonEmpty(dst), p.proto,
                         if p.hasPort then Some((p.srcPort, p.dstPort)) else None);
      SeeCreated(table.w, view, flowTimeout, node, NewFlow(p, src, dst));
      Insert(node, node.entry.item);
      log := log + [msg];
      st := FlowModel.Create(st, p, src, dst);
    }

    method Count(node: FlowNode, p: Packet)
      requires TableOk() && node in table.nodes
      modifies node.entry.item, this`view
      ensures TableOk() && view == old(view)[node := UpdateFlow(old(view[node]), p)]
    {
      hide LRUHash.Valid;
      assert Seen(node);
      node.entry.item.Update(p);
      view := view[node := node.entry.item.State()];
    }

    method Account(node: FlowNode, ghost i: nat, p: Packet)
      requires Valid() && i < |table.w.live| && table.w.live[i].item == node
      modifies Footprint()
      ensures Valid() && table.nodes == old(table.nodes) && flows == old(flows)
      ensures st == FlowModel.Account(old(st), i, p)
    {
      hide LRUHash.Valid, Map, See, NoDup, Items, Members, Inv, UpdateFlow, NewFlow;
      table.Contents();
      LiveMember(table.w, i);
      SeeAccounted(table.w, table.nodes, view, i, UpdateFlow(view[node], p));
      assert Seen(node);
      Count(node, p);
      var hex := node.entry.item.hex;
      if hex !in updateMap {
        updateMap := updateMap[hex := p.len];
      } else {
        updateMap := updateMap[hex := updateMap[hex] + p.len];
      }
      st := FlowModel.Account(st, i, p);
    }

    /** The DNS module is whole and apart from this one, and can be asked for both addresses. */
    ghost predicate CanResolve(dns: ModDns, srcAddr: Bytes, dstAddr: Bytes)
      reads this, table, dns, dns.queries, dns.addrs, dns.names, dns.Footprint()
    {
      && dns.Valid() && dns.Footprint() !! Footprint()
      && (|srcAddr| == 4 || |srcAddr| == 16) && (|dstAddr| == 4 || |dstAddr| == 16)
    }

    /** Creates a flow under the names that its addresses resolve to. */
    method Open(p: Packet, dns: ModDns, srcAddr: Bytes, dstAddr: Bytes) returns (node: FlowNode)
      requires Valid() && CanResolve(dns, srcAddr, dstAddr)
      modifies Footprint()
      ensures Valid() && fresh(table.nodes - old(table.nodes)) && fresh(flows - old(flows))
      ensures table.w.live != [] && table.w.live[0].item == node && |st.wheel.live| == |table.w.live|
      ensures st == FlowModel.Create(old(st), p, DnsModel.Resolve(old(dns.st), srcAddr, 32),
                                     DnsModel.Resolve(old(dns.st), dstAddr, 32))
    {
      hide Valid, ModDns.Valid, LRUHash.Valid, FlowModel.Create, DnsModel.Resolve, Inv, Map, See, Items;
      var src := dns.ResolvAddr(srcAddr);
      var dst := dns.ResolvAddr(dstAddr);
      node := Create(p, src, dst);
    }

    lemma Lookup(p: Packet) returns (i: nat)
      requires Valid()
      ensures table.Valid() && |st.wheel.live| == |table.w.live|
      ensures i == FindFlow(st.wheel.live, p.hv, p.ssn)
      ensures At(Items(table.w.live), FirstMatch(Items(table.w.live), p.hv, p.ssn))
              == if i < |table.w.live| then table.w.live[i].item else null
    {
      table.Contents();
      assert forall n | n in Items(table.w.live) :: n in table.nodes;
      FindSeen(table.w.live, view, p.hv, p.ssn);
      i := FindFlow(st.wheel.live, p.hv, p.ssn);
    }

    method Find(p: Packet) returns (node: Node?<Bytes, Flow>, ghost i: nat)
      requires Valid()
      ensures Valid() && i == FindFlow(st.wheel.live, p.hv, p.ssn) && |st.wheel.live| == |table.w.live|
      ensures if i < |table.w.live| then node == table.w.live[i].item else node == null
    {
      hide LRUHash.Valid, Map, See, Items, Inv;
      i := Lookup(p);
      node := table.Get(p.hv, p.ssn);
    }

    method FindOrOpen(p: Packet, dns: ModDns, srcAddr: Bytes, dstAddr: Bytes) returns (node: FlowNode, ghost i: nat)
      requires Valid() && CanResolve(dns, srcAddr, dstAddr)
      modifies Footprint()
      ensures Valid() && fresh(table.nodes - old(table.nodes)) && fresh(flows - old(flows))
      ensures i < |table.w.live| == |st.wheel.live| && table.w.live[i].item == node
      ensures var k := FindFlow(old(st.wheel.live), p.hv, p.ssn);
              if k < |old(st.wheel.live)| then i == k && st == old(st)
              else i == 0 && st == FlowModel.Create(old(st), p, DnsModel.Resolve(old(dns.st), srcAddr, 32),
                                                    DnsModel.Resolve(old(dns.st), dstAddr, 32))
    {
      hide Valid, FlowModel.Create, ModDns.Valid, DnsModel.Resolve;
      var found;
      found, i := Find(p);
      if found != null {
        return found, i;
      }
      node := Open(p, dns, srcAddr, dstAddr);
      i := 0;
    }

    /** The second half of `recv`: finds or creates the packet's flow and counts the packet. */
    method Record(p: Packet, dns: ModDns, srcAddr: Bytes, dstAddr: Bytes)
      requires Valid() && CanResolve(dns, srcAddr, dstAddr)
      modifies Footprint()
      ensures Valid() && fresh(table.nodes - old(table.nodes)) && fresh(flows - old(flows))
      ensures st == FlowModel.Record(old(st), p, DnsModel.Resolve(old(dns.st), srcAddr, 32),
                                     DnsModel.Resolve(old(dns.st), dstAddr, 32))
    {
      hide Valid, LRUHash.Valid, ModDns.Valid, DnsModel.Resolve, FlowModel.Account, FlowModel.Create;
      var node, i := FindOrOpen(p, dns, srcAddr, dstAddr);
      Account(node, i, p);
    }

    /** Handles one packet, naming a new flow's ends by what the DNS module has seen. */
    method Recv(eid: nat, p: Packet, dns: ModDns, srcAddr: Bytes, dstAddr: Bytes)
      requires Valid() && CanResolve(dns, srcAddr, dstAddr)
      modifies Footprint()
      ensures Valid() && fresh(table.nodes - old(table.nodes)) && fresh(flows - old(flows))
      ensures st == Receive(old(st), Arrival(p, eid == evIpv4 || eid == evIpv6,
                                             DnsModel.Resolve(old(dns.st), srcAddr, 32),
                                             DnsModel.Resolve(old(dns.st), dstAddr, 32)))
    {
      hide LRUHash.Valid, FlowModel.Advance, FlowModel.Record, Map, See, Items, Inv, TableOk,
           ModDns.Valid, DnsModel.Resolve;
      Advance(p.sec);
      if eid == evIpv4 || eid == evIpv6 {
        Record(p, dns, srcAddr, dstAddr);
      }
    }

    method Expire()
      requires Valid()
      modifies Footprint()
      ensures Valid() && table.nodes == old(table.nodes) && flows == old(flows) && log == old(log)
      ensures st == old(st).(wheel := TimingWheel.Purge(old(st.wheel)))
    {
      hide LRUHash.Valid, Map, See, TimingWheel.Purge;
      SeePurged(table.w, view);
      table.Purge();
      st := st.(wheel := TimingWheel.Purge(st.wheel));
    }

    method Discard() returns (more: bool)
      requires Valid()
      modifies Footprint()
      ensures Valid() && table.nodes <= old(table.nodes) && flows == old(flows) && log == old(log)
      ensures more <==> old(st.wheel.expired) != []
      ensures st == if more then old(st).(wheel := old(st.wheel).(expired := old(st.wheel.expired)[1..])) else old(st)
    {
      hide LRUHash.Valid, Map, See;
      SeePopped(table.w, view);
      var node := table.Pop();
      more := node != null;
      st := st.(wheel := TimingWheel.Pop(st.wheel));
    }

    lemma Emptied()
      requires Valid() && st.wheel.live == st.wheel.expired == []
      ensures table.nodes == {}
    {
      table.Contents();
      assert table.w.live == table.w.expired == [];
    }

    /** The destructor: takes every flow out of the table, and reports none of them. */
    method Close()
      requires Valid()
      modifies Footprint()
      ensures Valid() && table.nodes == {} && log == old(log)
      ensures st == old(st).(wheel := TimingWheel.Purge(old(st.wheel)).(expired := [])) && st.wheel.live == []
    {
      PurgeExpiresAll(st.wheel);
      Expire();
      hide Valid, TimingWheel.Purge, TimingWheel.Pop;
      var more := true;
      while more
        invariant Valid() && table.nodes <= old(table.nodes) && flows == old(flows) && log == old(log)
        invariant st.(wheel := st.wheel.(expired := []))
               == old(st).(wheel := TimingWheel.Purge(old(st.wheel)).(expired := []))
        invariant !more ==> st.wheel.expired == []
        decreases |st.wheel.expired|, more
      {
        more := Discard();
      }
      Emptied();
    }
  }
}
