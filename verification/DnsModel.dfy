/** The DNS module as a state machine over values: one step for each DNS packet received. */
module DnsModel {
  import opened Basics
  import opened TimingWheel

  const QUERY_SLOTS: nat := 600
  const CACHE_SLOTS: nat := 1200
  const QUERY_TTL: nat := 120
  const CACHE_TTL: nat := 600
  const USEC: int := 1_000_000

  // Record types of section 3.2.2 of RFC 1035 and section 2.1 of RFC 3596.
  const TYPE_A: nat := 1
  const TYPE_CNAME: nat := 5
  const TYPE_AAAA: nat := 28

  /** A record found by its key. */
  datatype Keyed<+K, +V> = Keyed(key: K, val: V)

  datatype QueryKey = QueryKey(hv: nat, txId: nat)

  /** A query that has been seen.  `fill` is what the reply flag held before anything set it. */
  datatype QueryInfo = QueryInfo(ts: int, client: string, server: string, qName: string, hasReply: bool, fill: bool)

  /** One answer: `data` are the raw bytes of its data, `text` is how the data reads. */
  datatype Answer = Answer(name: string, rtype: nat, typeName: string, data: Bytes, text: string)

  /** `query` says that the query/response bit is 0.  `fill` is the indeterminate initial value of
      the reply flag of a query created for this packet. */
  datatype DnsPacket = DnsPacket(sec: int, usec: nat, hv: nat, txId: nat, query: bool, src: string, dst: string,
                                 qNames: seq<string>, answers: seq<Answer>, fill: bool)
  {
    function Ts(): int { sec * USEC + usec }
    function Key(): QueryKey { QueryKey(hv, txId) }
  }

  datatype Status = Success | Miss | Timeout

  datatype DnsMessage =
    | DnsTx(ts: int, client: string, server: string, qName: string, status: Status, latency: Option<int>)
    | DnsLog(tsSec: int, logClient: string, logServer: string, name: string, typeName: string, data: string)

  /** `answered` is history: the serial numbers of the queries that have had a response. */
  datatype Dns = Dns(lastTs: int, queries: Wheel<Keyed<QueryKey, QueryInfo>>, addrs: Wheel<Keyed<Bytes, string>>,
                     names: Wheel<Keyed<string, string>>, log: seq<DnsMessage>, answered: set<nat>)

  /** Whole seconds of a time, as a conversion to an integer truncates it. */
  function Seconds(ts: int): int {
    if ts >= 0 then ts / USEC else -(-ts / USEC)
  }

  const EMPTY: Dns := Dns(0, New(QUERY_SLOTS), New(CACHE_SLOTS), New(CACHE_SLOTS), [], {})

  predicate IsAddress(a: Answer) {
    a.rtype == TYPE_A || a.rtype == TYPE_AAAA
  }

  /** What the source demands of a packet: a query asks something, an address has 4 or 16 bytes. */
  predicate WellFormed(p: DnsPacket) {
    && p.usec < USEC
    && (p.query ==> p.qNames != [])
    && forall a | a in p.answers :: IsAddress(a) ==> |a.data| == 4 || |a.data| == 16
  }

  // ------------------------------------------------------------------ lookups

  /** The live index of the newest record with key `k`, or |s|. */
  function FindKey<K(==), V>(s: seq<Timed<Keyed<K, V>>>, k: K): (i: nat)
    ensures i <= |s|
    ensures i < |s| ==> s[i].item.key == k
    ensures forall j | 0 <= j < i :: s[j].item.key != k
  {
    if s == [] || s[0].item.key == k then 0 else 1 + FindKey(s[1..], k)
  }

  predicate Has<K(==), V>(w: Wheel<Keyed<K, V>>, k: K) {
    FindKey(w.live, k) < |w.live|
  }

  function Get<K(==), V>(w: Wheel<Keyed<K, V>>, k: K): V
    requires Has(w, k)
  {
    w.live[FindKey(w.live, k)].item.val
  }

  /** Adds a record unless one with the key `guard` is live. */
  function PutUnless<K(==), V>(w: Wheel<Keyed<K, V>>, guard: K, ttl: nat, k: K, v: V): (w': Wheel<Keyed<K, V>>)
    ensures w'.slots == w.slots
  {
    if Has(w, guard) then w else Put(w, ttl, Keyed(k, v))
  }

  // -------------------------------------------------------------------- steps

  function Progress(d: Dns, sec: int): (d': Dns)
    requires d.queries.slots > 0 && d.addrs.slots > 0 && d.names.slots > 0
    ensures d'.queries.slots == d.queries.slots && d'.addrs.slots == d.addrs.slots && d'.names.slots == d.names.slots
  {
    if d.lastTs > 0 && sec > d.lastTs then
      var diff := sec - d.lastTs;
      d.(lastTs := sec, queries := Prog(d.queries, diff), addrs := Prog(d.addrs, diff), names := Prog(d.names, diff))
    else
      d.(lastTs := sec)
  }

  function NewQuery(p: DnsPacket): QueryInfo
    requires p.qNames != []
  {
    QueryInfo(p.Ts(), p.src, p.dst, p.qNames[0], p.fill, p.fill)
  }

  /** Files one answer; `tsSec` is the second of the query it belongs to. */
  function AddAnswer(d: Dns, p: DnsPacket, tsSec: int, a: Answer): (d': Dns)
    ensures d'.queries == d.queries && d'.lastTs == d.lastTs && d'.answered == d.answered
  {
    var d1 := d.(log := d.log + [DnsLog(tsSec, p.dst, p.src, a.name, a.typeName, a.text)]);
    if IsAddress(a) then
      d1.(addrs := PutUnless(d.addrs, a.data, CACHE_TTL, a.data, a.name))
    else if a.rtype == TYPE_CNAME then
      d1.(names := PutUnless(d.names, a.name, CACHE_TTL, a.text, a.name))
    else d1
  }

  function AddAnswers(d: Dns, p: DnsPacket, tsSec: int, n: nat): (d': Dns)
    requires n <= |p.answers|
    ensures d'.queries == d.queries && d'.lastTs == d.lastTs && d'.answered == d.answered
    ensures d'.addrs.slots == d.addrs.slots && d'.names.slots == d.names.slots
  {
    if n == 0 then d else AddAnswer(AddAnswers(d, p, tsSec, n - 1), p, tsSec, p.answers[n - 1])
  }

  function SuccessMessage(q: QueryInfo, p: DnsPacket): DnsMessage {
    DnsTx(q.ts, q.client, q.server, q.qName, Success, Some(p.Ts() - q.ts))
  }

  function MissMessage(p: DnsPacket): DnsMessage {
    DnsTx(p.Ts(), p.dst, p.src, if p.qNames == [] then "" else p.qNames[0], Miss, None)
  }

  function TimeoutMessage(q: QueryInfo): DnsMessage {
    DnsTx(q.ts, q.client, q.server, q.qName, Timeout, None)
  }

  /** Reports the response and marks query `i` as answered. */
  function Match(d: Dns, i: nat, p: DnsPacket): Dns
    requires i < |d.queries.live|
  {
    var x := d.queries.live[i];
    d.(log := d.log + [SuccessMessage(x.item.val, p)],
       queries := Update(d.queries, i, x.item.(val := x.item.val.(hasReply := true))),
       answered := d.answered + {x.serial})
  }

  function Receive(d: Dns, p: DnsPacket): (d': Dns)
    requires d.queries.slots > 0 && d.addrs.slots > 0 && d.names.slots > 0 && WellFormed(p)
    ensures d'.queries.slots == d.queries.slots && d'.addrs.slots == d.addrs.slots && d'.names.slots == d.names.slots
  {
    var d1 := Progress(d, p.sec);
    var i := FindKey(d1.queries.live, p.Key());
    if p.query then
      if i < |d1.queries.live| then d1
      else d1.(queries := Put(d1.queries, QUERY_TTL, Keyed(p.Key(), NewQuery(p))))
    else if i < |d1.queries.live| then
      AddAnswers(Match(d1, i, p), p, Seconds(d1.queries.live[i].item.val.ts), |p.answers|)
    else
      d1.(log := d1.log + [MissMessage(p)])
  }

  function ReceiveAll(d: Dns, s: seq<DnsPacket>): (d': Dns)
    requires d.queries.slots > 0 && d.addrs.slots > 0 && d.names.slots > 0 && forall p | p in s :: WellFormed(p)
    ensures d'.queries.slots == d.queries.slots && d'.addrs.slots == d.addrs.slots && d'.names.slots == d.names.slots
    decreases |s|
  {
    if s == [] then d else ReceiveAll(Receive(d, s[0]), s[1..])
  }

  // --------------------------------------------------------------- resolution

  /** Follows live CNAME records from `name`, at most `n` of them. */
  function Chase(w: Wheel<Keyed<string, string>>, name: string, n: nat): string
    decreases n
  {
    if n == 0 || !Has(w, name) then name else Chase(w, Get(w, name), n - 1)
  }

  function Resolve(d: Dns, addr: Bytes, n: nat): string {
    if Has(d.addrs, addr) then Chase(d.names, Get(d.addrs, addr), n) else ""
  }

  // ----------------------------------------------------------------- shutdown

  function FlushOne(d: Dns): Dns
    requires d.queries.expired != []
  {
    var q := d.queries.expired[0].item.val;
    d.(queries := Pop(d.queries), log := if q.hasReply then d.log else d.log + [TimeoutMessage(q)])
  }

  /** Reports the expired queries that had no reply, top of the chain first. */
  function Flush(d: Dns): Dns
    decreases |d.queries.expired|
  {
    if d.queries.expired == [] then d
    else Flush(FlushOne(d))
  }

  function Close(d: Dns): Dns
    requires d.queries.slots > 0
  {
    Flush(d.(queries := Purge(d.queries)))
  }
}
