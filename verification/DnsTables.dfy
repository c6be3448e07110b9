/** The three tables of the DNS module: hash tables of queries, addresses and canonical names. */
module DnsTables {
  import opened Basics
  import opened TimingWheel
  import opened LruHash
  import opened DnsModel

  // ------------------------------------------------------------------- hashing

  /** Bitwise exclusive or. */
  function Xor(a: nat, b: nat): nat
    decreases a + b
  {
    if a == 0 && b == 0 then 0
    else (if a % 2 == b % 2 then 0 else 1) + 2 * Xor(a / 2, b / 2)
  }

  function LittleEndian(b: Bytes): nat {
    if b == [] then 0 else b[0] as nat + 256 * LittleEndian(b[1..])
  }

  function QueryHash(k: QueryKey): nat {
    Xor(k.hv, k.txId)
  }

  /** An address of any other length is an assertion failure in the source. */
  function AddrHash(a: Bytes): nat {
    if |a| == 4 then LittleEndian(a)
    else if |a| == 16 then Xor(LittleEndian(a[..8]), LittleEndian(a[8..]))
    else 0
  }

  function NameHash(name: string): nat {
    0
  }

  lemma {:induction false} FindMapped<K, T, V>(s: seq<Timed<Node<K, T>>>, f: Node<K, T> -> Keyed<K, V>, hv: nat, key: K)
    requires forall n | n in Items(s) ::
               n.entry.Entry? && f(n).key == n.entry.key && (n.entry.key == key ==> n.entry.hv == hv)
    ensures FindKey(MapItems(s, f), key) == FirstMatch(Items(s), hv, key)
  {
    if s == [] {
    } else {
      assert Items(s)[0] in Items(s);
      assert MapItems(s, f)[1..] == MapItems(s[1..], f) && Items(s)[1..] == Items(s[1..]);
      FindMapped(s[1..], f, hv, key);
    }
  }

  // ------------------------------------------------------------------- records

  /** What a record's node says; a record never changes. */
  function RecordOf<K(0)>(none: K): Node<K, string> -> Keyed<K, string> {
    (n: Node<K, string>) => if n.entry.Entry? then Keyed(n.entry.key, n.entry.item) else Keyed(none, "")
  }

  /** A table of records, each a name filed under a key. */
  class Cache<K(==, 0, !new)> {
    const table: LRUHash<K, string>
    const hash: K -> nat
    ghost const none: K
    ghost var w: Wheel<Keyed<K, string>>
    ghost var Repr: set<object>

    ghost predicate Filed(n: Node<K, string>) {
      n.entry.Entry? && n.entry.hv == hash(n.entry.key)
    }

    ghost predicate Valid()
      reads this, Repr
      ensures Valid() ==> this in Repr
    {
      && {this} <= Repr && {table} <= Repr && Repr == {this} + table.Footprint()
      && this !in table.Footprint() && table.Valid()
      && (forall n | n in table.nodes :: Filed(n))
      && w == Map(table.w, RecordOf(none))
    }

    constructor (slots: nat, hash: K -> nat, ghost none: K)
      requires slots > 0
      ensures Valid() && fresh(Repr) && w == New(slots) && this.hash == hash
    {
      this.hash, this.none := hash, none;
      table := new LRUHash(slots);
      w := New(slots);
      new;
      Repr := {this} + table.Footprint();
    }

    method Find(key: K) returns (r: Option<string>)
      requires Valid()
      ensures r == if Has(w, key) then Some(Get(w, key)) else None
    {
      hide LRUHash.Valid;
      table.Contents();
      assert forall n | n in Items(table.w.live) :: n in table.nodes;
      FindMapped(table.w.live, RecordOf(none), hash(key), key);
      var node := table.Get(hash(key), key);
      r := if node == null then None else Some(node.entry.item);
    }

    lemma MapPut(v: Wheel<Node<K, string>>, none: K, t: nat, n: Node<K, string>)
      requires n.entry.Entry?
      ensures Map(TimingWheel.Put(v, t, n), RecordOf(none))
           == TimingWheel.Put(Map(v, RecordOf(none)), t, Keyed(n.entry.key, n.entry.item))
    {
    }

    method Add(ttl: nat, key: K, name: string)
      requires Valid()
      modifies Repr
      ensures Valid() && fresh(Repr - old(Repr))
      ensures w == TimingWheel.Put(old(w), ttl, Keyed(key, name))
    {
      hide LRUHash.Valid, RecordOf;
      table.Contents();
      var node := new Node(Entry(hash(key), key, name));
      MapPut(table.w, none, ttl, node);
      var ok := table.Put(ttl, node);
      assert this !in table.Footprint();
      w := TimingWheel.Put(w, ttl, Keyed(key, name));
      Repr := {this} + table.Footprint();
    }

    lemma MapSweepProg(v: Wheel<Node<K, string>>, none: K, k: nat)
      requires v.slots > 0
      ensures Map(TimingWheel.Prog(v, k), RecordOf(none)) == TimingWheel.Prog(Map(v, RecordOf(none)), k)
    {
      MapSweep(v, RecordOf(none), v.tick, k);
    }

    method Prog(k: nat)
      requires Valid() && w.slots > 0
      modifies Repr
      ensures Valid() && Repr == old(Repr)
      ensures w == TimingWheel.Prog(old(w), k)
    {
      hide LRUHash.Valid, RecordOf, TimingWheel.Prog;
      MapSweepProg(table.w, none, k);
      table.Prog(k);
      w := TimingWheel.Prog(w, k);
    }
  }

  // ------------------------------------------------------------------- queries

  type QueryNode = Node<QueryKey, Query>

  /** A query that has been seen; `fill` is the value its unset reply flag happens to have. */
  class Query {
    const key: QueryKey
    var client: string
    var server: string
    var lastTs: int
    var ts: int
    var names: seq<string>
    var hasReply: bool
    ghost const fill: bool
    ghost var node: Node?<QueryKey, Query>

    ghost function State(): QueryInfo
      reads this
    {
      QueryInfo(lastTs, client, server, if names == [] then "" else names[0], hasReply, fill)
    }

    constructor (key: QueryKey, fill: bool)
      ensures this.key == key && this.fill == fill && hasReply == fill && names == [] && node == null
    {
      this.key, this.fill, hasReply := key, fill, fill;
      names, node := [], null;
      client, server, lastTs, ts := "", "", 0, 0;
    }

    method SetFlow(client: string, server: string)
      modifies this`client, this`server
      ensures this.client == client && this.server == server
    {
      this.client, this.server := client, server;
    }

    method SetTs(t: int)
      modifies this`lastTs, this`ts
      ensures lastTs == t && ts == t
    {
      lastTs, ts := t, t;
    }

    /** Does not touch the time that latencies are measured from. */
    method SetLastTs(t: int)
      modifies this`ts
      ensures ts == t
    {
      ts := t;
    }

    method AddQuestion(name: string)
      modifies this`names
      ensures names == old(names) + [name]
    {
      names := names + [name];
    }

    method SetHasReply(has: bool)
      modifies this`hasReply
      ensures hasReply == has
    {
      hasReply := has;
    }
  }

  const NO_QUERY: QueryInfo := QueryInfo(0, "", "", "", false, false)

  /** What each node's query looks like in a snapshot of the heap. */
  function See(view: map<QueryNode, QueryInfo>): QueryNode -> Keyed<QueryKey, QueryInfo> {
    (n: QueryNode) => Keyed(if n.entry.Entry? then n.entry.key else QueryKey(0, 0),
                            if n in view then view[n] else NO_QUERY)
  }

  /** The table of queries. */
  class QueryTable {
    const table: LRUHash<QueryKey, Query>
    ghost var w: Wheel<Keyed<QueryKey, QueryInfo>>
    ghost var view: map<QueryNode, QueryInfo>
    ghost var queries: set<Query>

    ghost var Repr: set<object>

    ghost predicate Seen(n: QueryNode)
      reads this`view, this`queries, queries
    {
      && n in view && n.entry.Entry? && n.entry.item in queries
      && n.entry.item.node == n && n.entry.item.State() == view[n]
      && n.entry.hv == QueryHash(n.entry.key)
    }

    ghost predicate TableOk()
      reads this`view, this`queries, table, table.Footprint(), queries
    {
      && this !in table.Footprint() && table.Valid()
      && forall n | n in table.nodes :: Seen(n)
    }

    ghost predicate Valid()
      reads this, Repr
      ensures Valid() ==> this in Repr
    {
      && {this} <= Repr && {table} <= Repr && Repr == {this} + table.Footprint() + queries
      && TableOk() && w == Map(table.w, See(view))
    }

    constructor (slots: nat)
      requires slots > 0
      ensures Valid() && fresh(Repr) && w == New(slots)
    {
      table := new LRUHash(slots);
      w, view, queries := New(slots), map[], {};
      new;
      Repr := {this} + table.Footprint();
    }

    method Find(key: QueryKey) returns (node: Node?<QueryKey, Query>)
      requires Valid()
      ensures var i := FindKey(w.live, key);
              if i == |w.live| then node == null
              else
                && |table.w.live| == |w.live| && node == table.w.live[i].item && node in table.nodes
                && node.entry.Entry? && node.entry.item in Repr && node.entry.item.State() == w.live[i].item.val
    {
      hide LRUHash.Valid;
      table.Contents();
      assert forall n | n in Items(table.w.live) :: n in table.nodes && Seen(n);
      FindMapped(table.w.live, See(view), QueryHash(key), key);
      node := table.Get(QueryHash(key), key);
    }

    lemma SeeSwept(v: Wheel<QueryNode>, view: map<QueryNode, QueryInfo>, k: nat)
      requires v.slots > 0
      ensures Map(TimingWheel.Prog(v, k), See(view)) == TimingWheel.Prog(Map(v, See(view)), k)
      ensures Map(TimingWheel.Purge(v), See(view)) == TimingWheel.Purge(Map(v, See(view)))
    {
      MapSweep(v, See(view), v.tick, k);
      MapSweep(v, See(view), 0, v.slots);
    }

    method Prog(k: nat)
      requires Valid() && w.slots > 0
      modifies Repr
      ensures Valid() && Repr == old(Repr)
      ensures w == TimingWheel.Prog(old(w), k)
    {
      hide LRUHash.Valid, See, TimingWheel.Prog;
      SeeSwept(table.w, view, k);
      table.Prog(k);
      assert TableOk();
      w := TimingWheel.Prog(w, k);
    }

    method Purge()
      requires Valid() && w.slots > 0
      modifies Repr
      ensures Valid() && Repr == old(Repr)
      ensures w == TimingWheel.Purge(old(w))
    {
      hide LRUHash.Valid, See, TimingWheel.Purge;
      SeeSwept(table.w, view, 0);
      table.Purge();
      assert TableOk();
      w := TimingWheel.Purge(w);
    }

    method File(ttl: nat, node: QueryNode)
      requires TableOk() && node !in table.Footprint() && node.entry.Entry? && node.entry.item !in queries
      requires node.entry.hv == QueryHash(node.entry.key) && node.entry.item.node == node
      modifies table.Footprint(), node, this`view, this`queries
      ensures TableOk() && queries == old(queries) + {node.entry.item}
      ensures view == old(view)[node := old(node.entry.item.State())]
      ensures table.w == TimingWheel.Put(old(table.w), ttl, node) && table.nodes <= old(table.nodes) + {node}
    {
      hide LRUHash.Valid, TimingWheel.Put;
      var ok := table.Put(ttl, node);
      assert this !in table.Footprint();
      view := view[node := node.entry.item.State()];
      queries := queries + {node.entry.item};
    }

    lemma SeeInserted(v: Wheel<QueryNode>, view: map<QueryNode, QueryInfo>, t: nat, n: QueryNode, q: QueryInfo)
      requires n !in Members(v.live) + Members(v.expired) && n.entry.Entry?
      ensures Map(TimingWheel.Put(v, t, n), See(view[n := q]))
           == TimingWheel.Put(Map(v, See(view)), t, Keyed(n.entry.key, q))
    {
      forall i | 0 <= i < |v.live|
        ensures v.live[i].item != n
      {
        assert Items(v.live)[i] in Members(v.live);
      }
      forall i | 0 <= i < |v.expired|
        ensures v.expired[i].item != n
      {
        assert Items(v.expired)[i] in Members(v.expired);
      }
      MapAgree(v, See(view), See(view[n := q]));
    }

    method Insert(ttl: nat, node: QueryNode)
      requires Valid() && node !in Repr && node.entry.Entry? && node.entry.item !in Repr
      requires node.entry.hv == QueryHash(node.entry.key) && node.entry.item.node == node
      modifies Repr, node
      ensures Valid() && Repr <= old(Repr) + {node, node.entry.item}
      ensures w == TimingWheel.Put(old(w), ttl, Keyed(node.entry.key, old(node.entry.item.State())))
    {
      hide LRUHash.Valid, See, Map, TimingWheel.Put, NoDup, Items, Members, Inv;
      table.Contents();
      SeeInserted(table.w, view, ttl, node, node.entry.item.State());
      ghost var q := Keyed(node.entry.key, node.entry.item.State());
      File(ttl, node);
      w := TimingWheel.Put(w, ttl, q);
      Repr := {this} + table.Footprint() + queries;
    }

    /** Notes the time of a query seen again, which nothing reads. */
    method Retransmitted(node: QueryNode, t: int)
      requires Valid() && node in table.nodes
      modifies Repr
      ensures Valid() && Repr == old(Repr) && w == old(w)
    {
      hide LRUHash.Valid, See;
      assert Seen(node);
      node.entry.item.SetLastTs(t);
      assert TableOk();
    }

    lemma SeeReplied(v: Wheel<QueryNode>, nodes: set<QueryNode>, view: map<QueryNode, QueryInfo>, i: nat)
      requires i < |v.live| && NoDup(Items(v.live))
      requires nodes == Members(v.live) + Members(v.expired) && Members(v.live) !! Members(v.expired)
      requires v.live[i].item in nodes ==> v.live[i].item in view && v.live[i].item.entry.Entry?
      ensures var n, m := v.live[i].item, Map(v, See(view));
              && n in nodes && |m.live| == |v.live| && m.live[i].item == Keyed(n.entry.key, view[n])
              && Map(v, See(view[n := view[n].(hasReply := true)]))
                 == Update(m, i, m.live[i].item.(val := m.live[i].item.val.(hasReply := true)))
    {
      var n := v.live[i].item;
      assert Items(v.live)[i] in Members(v.live);
      forall j | 0 <= j < |v.live| && j != i
        ensures v.live[j].item != n
      {
        assert Items(v.live)[j] != Items(v.live)[i];
      }
      forall j | 0 <= j < |v.expired|
        ensures v.expired[j].item != n
      {
        assert Items(v.expired)[j] in Members(v.expired);
      }
      MapUpdate(v, See(view), See(view[n := view[n].(hasReply := true)]), i);
    }

    /** Marks the query at live index `i` as answered. */
    method SetReply(node: QueryNode, ghost i: nat)
      requires Valid() && i < |table.w.live| == |w.live| && node == table.w.live[i].item
      modifies Repr
      ensures Valid() && Repr == old(Repr)
      ensures w == Update(old(w), i, old(w.live[i].item).(val := old(w.live[i].item.val).(hasReply := true)))
    {
      hide LRUHash.Valid, See, Map, NoDup, Items, Members, Inv, Update;
      table.Contents();
      SeeReplied(table.w, table.nodes, view, i);
      assert Seen(node);
      var q := node.entry.item;
      q.SetHasReply(true);
      view := view[node := q.State()];
      assert TableOk();
      w := Update(w, i, w.live[i].item.(val := w.live[i].item.val.(hasReply := true)));
    }

    lemma SeePopped(v: Wheel<QueryNode>, view: map<QueryNode, QueryInfo>)
      ensures Map(Pop(v), See(view)) == Pop(Map(v, See(view)))
      ensures v.expired == [] <==> Map(v, See(view)).expired == []
      ensures v.expired == [] ==> At(Items(v.expired), 0) == null
      ensures v.expired != [] ==> At(Items(v.expired), 0) == v.expired[0].item
      ensures v.expired != [] && v.expired[0].item in view ==>
                Map(v, See(view)).expired[0].item.val == view[v.expired[0].item]
    {
    }

    /** Takes the first expired query, if any, out of the table. */
    method PopExpired() returns (q: Query?)
      requires Valid()
      modifies Repr
      ensures Valid() && Repr <= old(Repr)
      ensures w == TimingWheel.Pop(old(w))
      ensures q == null <==> old(w.expired) == []
      ensures q != null ==> q in Repr && q.State() == old(w.expired[0].item.val)
    {
      hide LRUHash.Valid, See, TimingWheel.Pop;
      SeePopped(table.w, view);
      var node := table.Pop();
      assert TableOk();
      w := TimingWheel.Pop(w);
      Repr := {this} + table.Footprint() + queries;
      if node == null {
        return null;
      }
      assert old(Seen(node));
      q := node.entry.item;
    }
  }
}
