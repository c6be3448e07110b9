/** The DNS module as the program runs it, on its three hash tables. */
module DnsModule {
  import opened Basics
  import opened TimingWheel
  import opened LruHash
  import opened DnsModel
  import opened DnsTables

  class ModDns {
    const queries: QueryTable
    const addrs: Cache<Bytes>
    const names: Cache<string>
    var lastTs: int
    var log: seq<DnsMessage>  // the messages emitted
    ghost var st: Dns         // the module this is

    ghost function Footprint(): set<object>
      reads this, queries, addrs, names
    {
      {this} + queries.Repr + addrs.Repr + names.Repr
    }

    ghost predicate Apart()
      reads this, queries, addrs, names
    {
      && queries in queries.Repr && addrs in addrs.Repr && names in names.Repr
      && this !in queries.Repr + addrs.Repr + names.Repr
      && queries.Repr !! addrs.Repr && queries.Repr !! names.Repr && addrs.Repr !! names.Repr
    }

    ghost predicate Valid()
      reads this, queries, addrs, names, Footprint()
    {
      && Apart() && queries.Valid() && addrs.Valid() && names.Valid()
      && st.queries == queries.w && st.addrs == addrs.w && st.names == names.w
      && st.lastTs == lastTs && st.log == log
      && st.queries.slots == QUERY_SLOTS && st.addrs.slots == CACHE_SLOTS && st.names.slots == CACHE_SLOTS
    }

    /** What the module shows to the outside. */
    lemma Shown()
      requires Valid()
      ensures log == st.log
      ensures st.queries.slots == QUERY_SLOTS && st.addrs.slots == CACHE_SLOTS && st.names.slots == CACHE_SLOTS
    {
    }

    constructor ()
      ensures Valid() && fresh(Footprint())
      ensures st == EMPTY
    {
      hide QueryTable.Valid, Cache.Valid;
      queries := new QueryTable(QUERY_SLOTS);
      addrs := new Cache(CACHE_SLOTS, AddrHash, []);
      names := new Cache(CACHE_SLOTS, NameHash, "");
      lastTs, log := 0, [];
      st := EMPTY;
    }

    /** Moves the clock of all three tables. */
    method Progress(sec: int)
      requires Valid()
      modifies Footprint()
      ensures Valid() && Footprint() == old(Footprint())
      ensures st == DnsModel.Progress(old(st), sec)
    {
      hide QueryTable.Valid, Cache.Valid, Prog;
      if lastTs > 0 && sec > lastTs {
        var diff := sec - lastTs;
        queries.Prog(diff);
        addrs.Prog(diff);
        names.Prog(diff);
      }
      lastTs := sec;
      st := DnsModel.Progress(st, sec);
    }

    /** Files one answer of a matched response. */
    method FileAnswer(p: DnsPacket, tsSec: int, a: Answer)
      requires Valid()
      modifies Footprint()
      ensures Valid() && fresh(Footprint() - old(Footprint()))
      ensures st == AddAnswer(old(st), p, tsSec, a)
    {
      hide QueryTable.Valid, Cache.Valid, Has, Get, Put;
      log := log + [DnsLog(tsSec, p.dst, p.src, a.name, a.typeName, a.text)];
      if a.rtype == TYPE_A || a.rtype == TYPE_AAAA {
        var rec := addrs.Find(a.data);
        if rec == None {
          addrs.Add(CACHE_TTL, a.data, a.name);
        }
      } else if a.rtype == TYPE_CNAME {
        var rec := names.Find(a.name);
        if rec == None {
          names.Add(CACHE_TTL, a.text, a.name);
        }
      }
      st := AddAnswer(st, p, tsSec, a);
    }

    method MakeQuery(p: DnsPacket) returns (node: QueryNode)
      requires p.qNames != []
      ensures fresh(node) && node.entry.Entry? && fresh(node.entry.item) && node.entry.item.node == node
      ensures node.entry.key == p.Key() && node.entry.hv == QueryHash(p.Key())
      ensures node.entry.item.State() == NewQuery(p)
    {
      var q := new Query(p.Key(), p.fill);
      q.SetFlow(p.src, p.dst);
      q.SetTs(p.Ts());
      for i := 0 to |p.qNames|
        invariant q.names == p.qNames[..i]
        invariant q.State() == NewQuery(p).(qName := q.State().qName) && q.node == null
      {
        q.AddQuestion(p.qNames[i]);
      }
      node := new Node(Entry(QueryHash(p.Key()), p.Key(), q));
      q.node := node;
    }

    /** A query not seen within its time to live is filed; `fill` is what its flag happens to hold. */
    method FileQuery(p: DnsPacket)
      requires Valid() && WellFormed(p) && p.query
      modifies Footprint()
      ensures Valid() && fresh(Footprint() - old(Footprint()))
      ensures st == old(st).(queries := Put(old(st.queries), QUERY_TTL, Keyed(p.Key(), NewQuery(p))))
    {
      hide QueryTable.Valid, Cache.Valid, Put;
      var node := MakeQuery(p);
      queries.Insert(QUERY_TTL, node);
      st := st.(queries := Put(st.queries, QUERY_TTL, Keyed(p.Key(), NewQuery(p))));
    }

    method FileAnswers(p: DnsPacket, tsSec: int)
      requires Valid()
      modifies Footprint()
      ensures Valid() && fresh(Footprint() - old(Footprint()))
      ensures st == AddAnswers(old(st), p, tsSec, |p.answers|)
    {
      hide QueryTable.Valid, Cache.Valid, AddAnswer;
      for n := 0 to |p.answers|
        invariant Valid() && fresh(Footprint() - old(Footprint()))
        invariant st == AddAnswers(old(st), p, tsSec, n)
      {
        FileAnswer(p, tsSec, p.answers[n]);
      }
    }

    /** Reports a response to query `node`, marks the query, and files the answers. */
    method Answered(node: QueryNode, ghost i: nat, p: DnsPacket)
      requires Valid() && i < |queries.table.w.live| == |st.queries.live| && node == queries.table.w.live[i].item
      requires node.entry.Entry? && node.entry.item.State() == st.queries.live[i].item.val
      requires node.entry.item in queries.Repr
      modifies Footprint()
      ensures Valid() && fresh(Footprint() - old(Footprint()))
      ensures st == AddAnswers(Match(old(st), i, p), p, Seconds(old(st).queries.live[i].item.val.ts), |p.answers|)
    {
      hide QueryTable.Valid, Cache.Valid, AddAnswers;
      var q := node.entry.item;
      var tsSec := Seconds(q.lastTs);
      var latency := p.Ts() - q.lastTs;
      log := log + [DnsTx(q.lastTs, q.client, q.server, if q.names == [] then "" else q.names[0],
                          Success, Some(latency))];
      queries.SetReply(node, i);
      st := Match(st, i, p);
      FileAnswers(p, tsSec);
    }

    method Recv(p: DnsPacket)
      requires Valid() && WellFormed(p)
      modifies Footprint()
      ensures Valid() && fresh(Footprint() - old(Footprint()))
      ensures st == Receive(old(st), p)
    {
      hide QueryTable.Valid, Cache.Valid, DnsModel.Progress, Match, AddAnswers, Put;
      Progress(p.sec);
      var node := queries.Find(p.Key());
      ghost var i := FindKey(st.queries.live, p.Key());
      if p.query {
        if node == null {
          FileQuery(p);
        } else {
          queries.Retransmitted(node, p.Ts());
        }
      } else if node != null {
        Answered(node, i, p);
      } else {
        log := log + [DnsTx(p.Ts(), p.dst, p.src, if p.qNames == [] then "" else p.qNames[0], Miss, None)];
        st := st.(log := st.log + [MissMessage(p)]);
      }
    }

    /** Follows live CNAME records from the name of an address record, at most `recurMax` of them. */
    method ResolvAddr(addr: Bytes, recurMax: nat := 32) returns (r: string)
      requires Valid() && (|addr| == 4 || |addr| == 16)
      ensures r == Resolve(st, addr, recurMax)
    {
      hide QueryTable.Valid, Cache.Valid;
      var rec := addrs.Find(addr);
      if rec == None {
        return "";
      }
      var name := rec.value;
      var i := 0;
      while i < recurMax
        invariant i <= recurMax
        invariant Chase(st.names, name, recurMax - i) == Chase(st.names, rec.value, recurMax)
      {
        var next := names.Find(name);
        if next == None {
          break;
        }
        name := next.value;
        i := i + 1;
      }
      r := name;
    }

    /** One round of the flush loop. */
    method FlushNext() returns (more: bool)
      requires Valid()
      modifies Footprint()
      ensures Valid() && Footprint() <= old(Footprint())
      ensures more <==> old(st.queries.expired) != []
      ensures st == if more then FlushOne(old(st)) else old(st)
      ensures |st.queries.expired| == |old(st.queries.expired)| - if more then 1 else 0
    {
      hide QueryTable.Valid, Cache.Valid;
      var q := queries.PopExpired();
      more := q != null;
      if q != null {
        if !q.hasReply {
          log := log + [DnsTx(q.lastTs, q.client, q.server, if q.names == [] then "" else q.names[0], Timeout, None)];
        }
        st := FlushOne(st);
      }
    }

    method FlushQuery()
      requires Valid()
      modifies Footprint()
      ensures Valid()
      ensures st == Flush(old(st))
    {
      hide QueryTable.Valid, Cache.Valid, FlushOne, Valid;
      var more := true;
      while more
        invariant Valid() && Footprint() <= old(Footprint())
        invariant Flush(st) == Flush(old(st))
        invariant !more ==> st.queries.expired == []
        decreases |st.queries.expired|, more
      {
        more := FlushNext();
      }
    }

    /** Expires everything and reports the queries that had no reply. */
    method Close()
      requires Valid()
      modifies Footprint()
      ensures Valid()
      ensures st == DnsModel.Close(old(st))
    {
      hide QueryTable.Valid, Cache.Valid, Purge;
      queries.Purge();
      st := st.(queries := Purge(st.queries));
      FlushQuery();
    }
  }
}
