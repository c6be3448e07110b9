/** Query matching and the address cache are plain timestamped maps, as long as the clock does not
    go back. */
module DnsLeases {
  import opened Basics
  import opened TimingWheel
  import opened DnsModel

  /** A value and the second it was recorded at. */
  datatype Stamp<+U> = Stamp(val: U, at: int)

  // ------------------------------------------------- a wheel as a timestamped map

  predicate Fresh<K(==), U>(m: map<K, Stamp<U>>, k: K, now: int, ttl: nat) {
    k in m && now - m[k].at <= ttl
  }

  /** A live record shows what the map holds, and runs out `ttl` seconds after it was recorded. */
  ghost predicate Shows<K, V, U>(w: Wheel<Keyed<K, V>>, now: int, ttl: nat, m: map<K, Stamp<U>>, f: V -> U,
                                 x: Timed<Keyed<K, V>>)
  {
    && x.item.key in m
    && f(x.item.val) == m[x.item.key].val
    && x.due - w.tick == ttl - (now - m[x.item.key].at)
  }

  ghost predicate HasLive<K, V>(w: Wheel<Keyed<K, V>>, k: K) {
    exists x :: x in w.live && x.item.key == k
  }

  ghost predicate DistinctKeys<K, V>(s: seq<Timed<Keyed<K, V>>>) {
    forall i, j | 0 <= i < j < |s| :: s[i].item.key != s[j].item.key
  }

  /** The wheel holds exactly the fresh entries of the map, one record each. */
  ghost predicate Mirrors<K, V, U>(w: Wheel<Keyed<K, V>>, now: int, ttl: nat, m: map<K, Stamp<U>>, f: V -> U) {
    && Inv(w) && ttl < w.slots
    && (forall x | x in w.live :: Shows(w, now, ttl, m, f, x))
    && (forall k | k in m :: m[k].at <= now && (Fresh(m, k, now, ttl) ==> HasLive(w, k)))
    && DistinctKeys(w.live)
  }

  /** Looking up the wheel is looking up the map: found if and only if fresh, and the same value. */
  lemma LookupAgrees<K, V, U>(w: Wheel<Keyed<K, V>>, now: int, ttl: nat, m: map<K, Stamp<U>>, f: V -> U, k: K)
    requires Mirrors(w, now, ttl, m, f)
    ensures Has(w, k) <==> Fresh(m, k, now, ttl)
    ensures Has(w, k) ==> f(Get(w, k)) == m[k].val && m[k].at <= now
  {
    var i := FindKey(w.live, k);
    if i < |w.live| {
      assert w.live[i] in w.live && Shows(w, now, ttl, m, f, w.live[i]);
    }
    if Fresh(m, k, now, ttl) {
      var x :| x in w.live && x.item.key == k;
      var j :| 0 <= j < |w.live| && w.live[j] == x;
    }
  }

  lemma {:induction false} DistinctDueFrom<K, V>(s: seq<Timed<Keyed<K, V>>>, d: nat)
    requires DistinctKeys(s)
    ensures DistinctKeys(DueFrom(s, d))
    decreases |s|
  {
    if s == [] {
    } else {
      DistinctDueFrom(s[1..], d);
      forall x | x in DueFrom(s[1..], d)
        ensures x.item.key != s[0].item.key
      {
        DueFromMember(s[1..], d, x);
        var k :| 0 <= k < |s| - 1 && s[1..][k] == x;
        assert s[k + 1] == x;
      }
    }
  }

  /** Time passing ages both alike. */
  lemma ProgMirrors<K, V, U>(w: Wheel<Keyed<K, V>>, now: int, d: nat, ttl: nat, m: map<K, Stamp<U>>, f: V -> U)
    requires Mirrors(w, now, ttl, m, f)
    ensures Mirrors(Prog(w, d), now + d, ttl, m, f)
  {
    var v := Prog(w, d);
    ProgExact(w, d);
    ProgKeepsInv(w, d);
    DistinctDueFrom(w.live, v.tick);
    forall x | x in v.live
      ensures Shows(v, now + d, ttl, m, f, x)
    {
      DueFromMember(w.live, v.tick, x);
      assert Shows(w, now, ttl, m, f, x);
    }
    forall k | k in m
      ensures Fresh(m, k, now + d, ttl) ==> HasLive(v, k)
    {
      if Fresh(m, k, now + d, ttl) {
        assert Fresh(m, k, now, ttl);
        var x :| x in w.live && x.item.key == k;
        assert Shows(w, now, ttl, m, f, x);
        DueFromMember(w.live, v.tick, x);
      }
    }
  }

  /** Recording what is not fresh. */
  lemma PutMirrors<K, V, U>(w: Wheel<Keyed<K, V>>, now: int, ttl: nat, m: map<K, Stamp<U>>, f: V -> U, k: K, v: V)
    requires Mirrors(w, now, ttl, m, f) && !Has(w, k)
    ensures Mirrors(Put(w, ttl, Keyed(k, v)), now, ttl, m[k := Stamp(f(v), now)], f)
  {
    var m' := m[k := Stamp(f(v), now)];
    var w' := Put(w, ttl, Keyed(k, v));
    forall i | 0 <= i < |w'.live|
      ensures Shows(w', now, ttl, m', f, w'.live[i])
    {
      if i > 0 {
        assert w'.live[i] == w.live[i - 1] && w.live[i - 1] in w.live;
        assert Shows(w, now, ttl, m, f, w.live[i - 1]);
      }
    }
    forall l | l in m'
      ensures Fresh(m', l, now, ttl) ==> HasLive(w', l)
    {
      if l == k {
        assert w'.live[0] in w'.live;
      } else if Fresh(m, l, now, ttl) {
        var x :| x in w.live && x.item.key == l;
        assert x in w'.live;
      }
    }
  }

  /** Changing a part of a record that the map does not show. */
  lemma UpdateMirrors<K, V, U>(w: Wheel<Keyed<K, V>>, now: int, ttl: nat, m: map<K, Stamp<U>>, f: V -> U, i: nat, v: V)
    requires Mirrors(w, now, ttl, m, f) && i < |w.live| && f(v) == f(w.live[i].item.val)
    ensures Mirrors(Update(w, i, w.live[i].item.(val := v)), now, ttl, m, f)
  {
    var w' := Update(w, i, w.live[i].item.(val := v));
    forall j | 0 <= j < |w'.live|
      ensures Shows(w', now, ttl, m, f, w'.live[j])
    {
      assert w.live[j] in w.live && Shows(w, now, ttl, m, f, w.live[j]);
    }
    forall k | k in m
      ensures Fresh(m, k, now, ttl) ==> HasLive(w', k)
    {
      if Fresh(m, k, now, ttl) {
        var x :| x in w.live && x.item.key == k;
        var j :| 0 <= j < |w.live| && w.live[j] == x;
        assert w'.live[j] in w'.live;
      }
    }
  }

  // --------------------------------------------------------- the simple machine

  /** Who asked whom for what, and when. */
  datatype Asked = Asked(ts: int, client: string, server: string, qName: string)

  /** A canonical name filed at a second. */
  datatype Alias = Alias(cname: string, qname: string, at: int)

  /** Queries and addresses as timestamped maps, canonical names as a list of all ever filed, newest
      first; `log` is what was reported. */
  datatype Ref = Ref(queries: map<QueryKey, Stamp<Asked>>, addrs: map<Bytes, Stamp<string>>, names: seq<Alias>,
                     log: seq<DnsMessage>)

  const START: Ref := Ref(map[], map[], [], [])

  /** What tells queries apart: the hash of the flow and the transaction id. */
  function Id(p: DnsPacket): QueryKey {
    QueryKey(p.hv, p.txId)
  }

  function Micros(p: DnsPacket): int {
    p.sec * 1_000_000 + p.usec
  }

  function FirstName(p: DnsPacket): string {
    if p.qNames == [] then "" else p.qNames[0]
  }

  /** The aliases that are at most 600 seconds old. */
  function FreshNames(s: seq<Alias>, now: int): seq<Alias> {
    if s == [] then []
    else (if now - s[0].at <= 600 then [s[0]] else []) + FreshNames(s[1..], now)
  }

  /** Index of the newest alias for `name`, or |s|. */
  function FindAlias(s: seq<Alias>, name: string): (i: nat)
    ensures i <= |s|
  {
    if s == [] || s[0].cname == name then 0 else 1 + FindAlias(s[1..], name)
  }

  /** An answer is filed as an alias unless its owner name is itself a fresh alias. */
  function RefNames(s: seq<Alias>, answers: seq<Answer>, n: nat, sec: int): seq<Alias>
    requires n <= |answers|
  {
    if n == 0 then s
    else
      var s1 := RefNames(s, answers, n - 1, sec);
      var a := answers[n - 1];
      var f := FreshNames(s1, sec);
      if a.rtype == 5 && FindAlias(f, a.name) == |f| then [Alias(a.text, a.name, sec)] + s1 else s1
  }

  function RefChase(s: seq<Alias>, name: string, n: nat): string
    decreases n
  {
    var i := FindAlias(s, name);
    if n == 0 || i == |s| then name else RefChase(s, s[i].qname, n - 1)
  }

  /** What an address resolves to at second `now`. */
  function RefResolve(r: Ref, addr: Bytes, now: int, n: nat): string {
    if Fresh(r.addrs, addr, now, 600) then RefChase(FreshNames(r.names, now), r.addrs[addr].val, n) else ""
  }

  /** First writer wins: an address keeps its name until 600 seconds after it was first recorded. */
  function RefAddrs(m: map<Bytes, Stamp<string>>, answers: seq<Answer>, n: nat, sec: int): map<Bytes, Stamp<string>>
    requires n <= |answers|
  {
    if n == 0 then m
    else
      var m1 := RefAddrs(m, answers, n - 1, sec);
      var a := answers[n - 1];
      if (a.rtype == 1 || a.rtype == 28) && !Fresh(m1, a.data, sec, 600) then m1[a.data := Stamp(a.name, sec)] else m1
  }

  /** One message for each of the first `n` answers. */
  function RefLogs(p: DnsPacket, tsSec: int, n: nat): seq<DnsMessage>
    requires n <= |p.answers|
  {
    seq(n, i requires 0 <= i < n =>
      DnsLog(tsSec, p.dst, p.src, p.answers[i].name, p.answers[i].typeName, p.answers[i].text))
  }

  function RefStep(r: Ref, p: DnsPacket): Ref {
    var known := Fresh(r.queries, Id(p), p.sec, 120);
    if p.query then
      if known then r
      else r.(queries := r.queries[Id(p) := Stamp(Asked(Micros(p), p.src, p.dst, FirstName(p)), p.sec)])
    else if known then
      var q, at := r.queries[Id(p)].val, r.queries[Id(p)].at;
      r.(log := r.log + [DnsTx(q.ts, q.client, q.server, q.qName, Success, Some(Micros(p) - q.ts))]
                + RefLogs(p, at, |p.answers|),
         addrs := RefAddrs(r.addrs, p.answers, |p.answers|, p.sec),
         names := RefNames(r.names, p.answers, |p.answers|, p.sec))
    else
      r.(log := r.log + [DnsTx(Micros(p), p.dst, p.src, FirstName(p), Miss, None)])
  }

  function RefRun(r: Ref, s: seq<DnsPacket>): Ref
    decreases |s|
  {
    if s == [] then r else RefRun(RefStep(r, s[0]), s[1..])
  }

  // ------------------------------------------------------------------ refinement

  const ASKED: QueryInfo -> Asked := (q: QueryInfo) => Asked(q.ts, q.client, q.server, q.qName)

  const NAME_OF: string -> string := (name: string) => name

  ghost predicate Aligned(live: seq<Timed<Keyed<string, string>>>, tick: nat, now: int, s: seq<Alias>) {
    && |live| == |s|
    && forall i | 0 <= i < |s| ::
         live[i].item == Keyed(s[i].cname, s[i].qname) && live[i].due - tick == CACHE_TTL - (now - s[i].at)
  }

  /** The live records are the fresh aliases, in order, each running out 600 seconds after filing. */
  ghost predicate Lists(w: Wheel<Keyed<string, string>>, now: int, s: seq<Alias>) {
    && Inv(w) && CACHE_TTL < w.slots && (forall i | 0 <= i < |s| :: s[i].at <= now)
    && Aligned(w.live, w.tick, now, FreshNames(s, now))
  }

  ghost predicate Agrees(d: Dns, r: Ref) {
    && 0 <= d.lastTs && d.queries.slots > 0 && d.addrs.slots > 0 && d.names.slots > 0
    && (d.lastTs == 0 ==> r.queries == map[] && r.addrs == map[] && r.names == [])
    && Mirrors(d.queries, d.lastTs, QUERY_TTL, r.queries, ASKED)
    && Mirrors(d.addrs, d.lastTs, CACHE_TTL, r.addrs, NAME_OF)
    && Lists(d.names, d.lastTs, r.names)
    && (forall k | k in r.queries :: Seconds(r.queries[k].val.ts) == r.queries[k].at)
    && d.log == r.log
  }

  /** The whole seconds of a positive time are its seconds. */
  lemma SecondsOf(p: DnsPacket)
    requires p.usec < USEC && 0 <= p.sec
    ensures p.Ts() == Micros(p) && Seconds(Micros(p)) == p.sec
  {
    assert (p.sec * USEC + p.usec) / USEC == p.sec;
  }

  lemma {:induction false} FreshLater(s: seq<Alias>, now: int, d: nat)
    ensures FreshNames(FreshNames(s, now), now + d) == FreshNames(s, now + d)
  {
    if s == [] {
    } else {
      FreshLater(s[1..], now, d);
      if now - s[0].at <= CACHE_TTL {
        assert FreshNames(s, now)[1..] == FreshNames(s[1..], now);
      } else {
        assert [] + FreshNames(s[1..], now) == FreshNames(s[1..], now);
      }
    }
  }

  lemma AlignedCons(x: Timed<Keyed<string, string>>, live: seq<Timed<Keyed<string, string>>>, tick: nat, now: int,
                    a: Alias, s: seq<Alias>)
    requires Aligned(live, tick, now, s)
    requires x.item == Keyed(a.cname, a.qname) && x.due - tick == CACHE_TTL - (now - a.at)
    ensures Aligned([x] + live, tick, now, [a] + s)
  {
  }

  lemma {:induction false} AlignedLater(live: seq<Timed<Keyed<string, string>>>, tick: nat, now: int, d: nat,
                                        s: seq<Alias>)
    requires Aligned(live, tick, now, s)
    ensures Aligned(DueFrom(live, tick + d), tick + d, now + d, FreshNames(s, now + d))
    decreases |s|
  {
    if s == [] {
    } else {
      assert forall i | 0 <= i < |s| - 1 :: live[1..][i] == live[i + 1] && s[1..][i] == s[i + 1];
      AlignedLater(live[1..], tick, now, d, s[1..]);
      assert live[0].item == Keyed(s[0].cname, s[0].qname) && live[0].due - tick == CACHE_TTL - (now - s[0].at);
      var rest, late := DueFrom(live[1..], tick + d), FreshNames(s[1..], now + d);
      hide Aligned;
      if live[0].due >= tick + d {
        AlignedCons(live[0], rest, tick + d, now + d, s[0], late);
      } else {
        assert [] + late == late;
      }
    }
  }

  lemma ProgLists(w: Wheel<Keyed<string, string>>, now: int, d: nat, s: seq<Alias>)
    requires Lists(w, now, s)
    ensures Lists(Prog(w, d), now + d, s)
  {
    ProgExact(w, d);
    ProgKeepsInv(w, d);
    AlignedLater(w.live, w.tick, now, d, FreshNames(s, now));
    FreshLater(s, now, d);
  }

  lemma {:induction false} AliasFound(live: seq<Timed<Keyed<string, string>>>, tick: nat, now: int, s: seq<Alias>,
                                      name: string)
    requires Aligned(live, tick, now, s)
    ensures FindKey(live, name) == FindAlias(s, name)
    decreases |s|
  {
    if s == [] {
    } else {
      assert forall i | 0 <= i < |s| - 1 :: live[1..][i] == live[i + 1] && s[1..][i] == s[i + 1];
      AliasFound(live[1..], tick, now, s[1..], name);
    }
  }

  lemma FreshCons(a: Alias, s: seq<Alias>, now: int)
    requires a.at == now
    ensures FreshNames([a] + s, now) == [a] + FreshNames(s, now)
  {
    assert ([a] + s)[1..] == s;
  }

  lemma PutLists(w: Wheel<Keyed<string, string>>, now: int, s: seq<Alias>, a: Answer)
    requires Lists(w, now, s)
    ensures var f := FreshNames(s, now);
            Lists(PutUnless(w, a.name, CACHE_TTL, a.text, a.name), now,
                  if FindAlias(f, a.name) == |f| then [Alias(a.text, a.name, now)] + s else s)
  {
    hide Aligned, Inv, FreshNames, FindAlias, FindKey;
    var f, b := FreshNames(s, now), Alias(a.text, a.name, now);
    AliasFound(w.live, w.tick, now, f, a.name);
    FreshCons(b, s, now);
    AlignedCons(Timed(Keyed(a.text, a.name), w.tick + CACHE_TTL, w.puts), w.live, w.tick, now, b, f);
    PutKeepsInv(w, CACHE_TTL, Keyed(a.text, a.name));
  }

  lemma {:induction false} AnswersList(d: Dns, p: DnsPacket, tsSec: int, n: nat, s: seq<Alias>)
    requires n <= |p.answers| && Lists(d.names, d.lastTs, s)
    ensures Lists(AddAnswers(d, p, tsSec, n).names, d.lastTs, RefNames(s, p.answers, n, d.lastTs))
    decreases n
  {
    hide Lists, PutUnless;
    if n == 0 {
    } else {
      AnswersList(d, p, tsSec, n - 1, s);
      PutLists(AddAnswers(d, p, tsSec, n - 1).names, d.lastTs, RefNames(s, p.answers, n - 1, d.lastTs),
               p.answers[n - 1]);
    }
  }

  lemma {:induction false} ChaseAgrees(w: Wheel<Keyed<string, string>>, now: int, s: seq<Alias>, name: string, n: nat)
    requires Aligned(w.live, w.tick, now, s)
    ensures Chase(w, name, n) == RefChase(s, name, n)
    decreases n
  {
    AliasFound(w.live, w.tick, now, s, name);
    if n != 0 && Has(w, name) {
      ChaseAgrees(w, now, s, Get(w, name), n - 1);
    }
  }

  lemma KeyInMap<K, V, U>(w: Wheel<Keyed<K, V>>, now: int, ttl: nat, m: map<K, Stamp<U>>, f: V -> U, i: nat)
    requires Mirrors(w, now, ttl, m, f) && i < |w.live|
    ensures w.live[i].item.key in m
  {
    assert w.live[i] in w.live;
  }

  lemma EmptyMirrors<K, V, U>(w: Wheel<Keyed<K, V>>, now: int, now': int, ttl: nat, f: V -> U)
    requires Mirrors(w, now, ttl, map[], f)
    ensures Mirrors(w, now', ttl, map[], f)
  {
    if w.live != [] {
      KeyInMap(w, now, ttl, map[], f, 0);
      assert false;
    }
  }

  lemma EmptyLists(w: Wheel<Keyed<string, string>>, now: int, now': int)
    requires Lists(w, now, [])
    ensures Lists(w, now', [])
  {
  }

  lemma ProgressAgrees(d: Dns, r: Ref, sec: int)
    requires Agrees(d, r) && d.lastTs <= sec && 0 < sec
    ensures Agrees(Progress(d, sec), r)
  {
    hide Mirrors, Lists;
    if d.lastTs == 0 {
      EmptyMirrors(d.queries, 0, sec, QUERY_TTL, ASKED);
      EmptyMirrors(d.addrs, 0, sec, CACHE_TTL, NAME_OF);
      EmptyLists(d.names, 0, sec);
    } else if d.lastTs < sec {
      ProgMirrors(d.queries, d.lastTs, sec - d.lastTs, QUERY_TTL, r.queries, ASKED);
      ProgMirrors(d.addrs, d.lastTs, sec - d.lastTs, CACHE_TTL, r.addrs, NAME_OF);
      ProgLists(d.names, d.lastTs, sec - d.lastTs, r.names);
    }
  }

  lemma AnswerAgrees(w: Wheel<Keyed<Bytes, string>>, now: int, a: Answer, m: map<Bytes, Stamp<string>>)
    requires Mirrors(w, now, CACHE_TTL, m, NAME_OF)
    ensures Mirrors(PutUnless(w, a.data, CACHE_TTL, a.data, a.name), now, CACHE_TTL,
                    if Fresh(m, a.data, now, CACHE_TTL) then m else m[a.data := Stamp(a.name, now)], NAME_OF)
  {
    hide Mirrors, Lists;
    LookupAgrees(w, now, CACHE_TTL, m, NAME_OF, a.data);
    if !Has(w, a.data) {
      PutMirrors(w, now, CACHE_TTL, m, NAME_OF, a.data, a.name);
    }
  }

  lemma {:induction false} AnswersAgree(d: Dns, p: DnsPacket, tsSec: int, n: nat, m: map<Bytes, Stamp<string>>)
    requires n <= |p.answers| && Mirrors(d.addrs, d.lastTs, CACHE_TTL, m, NAME_OF)
    ensures Mirrors(AddAnswers(d, p, tsSec, n).addrs, d.lastTs, CACHE_TTL,
                    RefAddrs(m, p.answers, n, d.lastTs), NAME_OF)
    decreases n
  {
    hide Mirrors, PutUnless;
    if n == 0 {
    } else {
      AnswersAgree(d, p, tsSec, n - 1, m);
      AnswerAgrees(AddAnswers(d, p, tsSec, n - 1).addrs, d.lastTs, p.answers[n - 1],
                   RefAddrs(m, p.answers, n - 1, d.lastTs));
    }
  }

  lemma {:induction false} AnswersLogged(d: Dns, p: DnsPacket, tsSec: int, n: nat)
    requires n <= |p.answers|
    ensures AddAnswers(d, p, tsSec, n).log == d.log + RefLogs(p, tsSec, n)
    decreases n
  {
    hide PutUnless;
    if n == 0 {
    } else {
      AnswersLogged(d, p, tsSec, n - 1);
      var a := p.answers[n - 1];
      assert RefLogs(p, tsSec, n)
          == RefLogs(p, tsSec, n - 1) + [DnsLog(tsSec, p.dst, p.src, a.name, a.typeName, a.text)];
    }
  }

  lemma QueryAgrees(d: Dns, r: Ref, p: DnsPacket)
    requires Agrees(d, r) && WellFormed(p) && p.query && d.lastTs == p.sec > 0
    ensures var i := FindKey(d.queries.live, p.Key());
            i == |d.queries.live| ==>
              Agrees(d.(queries := Put(d.queries, QUERY_TTL, Keyed(p.Key(), NewQuery(p)))), RefStep(r, p))
    ensures FindKey(d.queries.live, p.Key()) < |d.queries.live| ==> Agrees(d, RefStep(r, p))
  {
    hide Mirrors, Lists, Seconds;
    SecondsOf(p);
    LookupAgrees(d.queries, d.lastTs, QUERY_TTL, r.queries, ASKED, p.Key());
    if !Has(d.queries, p.Key()) {
      PutMirrors(d.queries, d.lastTs, QUERY_TTL, r.queries, ASKED, p.Key(), NewQuery(p));
    }
  }

  lemma MatchAgrees(d: Dns, r: Ref, p: DnsPacket)
    requires Agrees(d, r) && WellFormed(p) && !p.query && d.lastTs == p.sec > 0
    requires FindKey(d.queries.live, p.Key()) < |d.queries.live|
    ensures var i := FindKey(d.queries.live, p.Key());
            var t := Seconds(d.queries.live[i].item.val.ts);
            Agrees(AddAnswers(Match(d, i, p), p, t, |p.answers|), RefStep(r, p))
  {
    hide Mirrors, Lists, AddAnswers, RefAddrs, RefNames, RefLogs, Seconds;
    SecondsOf(p);
    var i := FindKey(d.queries.live, p.Key());
    var q := d.queries.live[i].item.val;
    LookupAgrees(d.queries, d.lastTs, QUERY_TTL, r.queries, ASKED, p.Key());
    UpdateMirrors(d.queries, d.lastTs, QUERY_TTL, r.queries, ASKED, i, q.(hasReply := true));
    var d1 := Match(d, i, p);
    AnswersAgree(d1, p, Seconds(q.ts), |p.answers|, r.addrs);
    AnswersList(d1, p, Seconds(q.ts), |p.answers|, r.names);
    AnswersLogged(d1, p, Seconds(q.ts), |p.answers|);
  }

  lemma MissAgrees(d: Dns, r: Ref, p: DnsPacket)
    requires Agrees(d, r) && WellFormed(p) && !p.query && d.lastTs == p.sec > 0
    requires FindKey(d.queries.live, p.Key()) == |d.queries.live|
    ensures Agrees(d.(log := d.log + [MissMessage(p)]), RefStep(r, p))
  {
    hide Mirrors, Lists, Seconds;
    SecondsOf(p);
    LookupAgrees(d.queries, d.lastTs, QUERY_TTL, r.queries, ASKED, p.Key());
  }

  lemma StepAgrees(d: Dns, r: Ref, p: DnsPacket)
    requires Agrees(d, r) && WellFormed(p) && d.lastTs <= p.sec && 0 < p.sec
    ensures Agrees(Receive(d, p), RefStep(r, p)) && Receive(d, p).lastTs == p.sec
  {
    hide Mirrors, Lists;
    ProgressAgrees(d, r, p.sec);
    var d1 := Progress(d, p.sec);
    if p.query {
      QueryAgrees(d1, r, p);
    } else if FindKey(d1.queries.live, p.Key()) < |d1.queries.live| {
      MatchAgrees(d1, r, p);
    } else {
      MissAgrees(d1, r, p);
    }
  }

  /** No time is, to the second, below `low` or more than `b` seconds behind the latest so far. */
  ghost predicate Within(s: seq<DnsPacket>, low: int, b: nat, latest: int) {
    s != [] ==>
      && s[0].sec >= low && s[0].sec >= latest - b
      && Within(s[1..], low, b, if s[0].sec > latest then s[0].sec else latest)
  }

  /** Times are positive and, to the second, never decrease. */
  ghost predicate Monotone(s: seq<DnsPacket>, from: int) {
    Within(s, 1, 0, from)
  }

  /** On such a clock the module reports, response by response, what the simple machine reports, and
      its address cache answers as the machine's map does. */
  lemma {:induction false} RunAgrees(d: Dns, r: Ref, s: seq<DnsPacket>)
    requires Agrees(d, r) && Monotone(s, d.lastTs) && forall p | p in s :: WellFormed(p)
    ensures Agrees(ReceiveAll(d, s), RefRun(r, s))
    decreases |s|
  {
    if s == [] {
    } else {
      StepAgrees(d, r, s[0]);
      RunAgrees(Receive(d, s[0]), RefStep(r, s[0]), s[1..]);
    }
  }

  lemma StartAgrees()
    ensures Agrees(EMPTY, START)
  {
    assert EMPTY.queries.live == [] && EMPTY.addrs.live == [] && EMPTY.names.live == [];
  }

  /** Resolving in the module is resolving in the simple machine. */
  lemma ResolveAgrees(d: Dns, r: Ref, addr: Bytes, n: nat)
    requires Agrees(d, r)
    ensures Resolve(d, addr, n) == RefResolve(r, addr, d.lastTs, n)
  {
    hide Mirrors, Fresh, Chase, RefChase, FreshNames;
    LookupAgrees(d.addrs, d.lastTs, CACHE_TTL, r.addrs, NAME_OF, addr);
    if Has(d.addrs, addr) {
      ChaseAgrees(d.names, d.lastTs, FreshNames(r.names, d.lastTs), Get(d.addrs, addr), n);
    }
  }

  /** From the start: a response is reported as a success exactly when a query with its flow hash and
      transaction id was recorded at most 120 seconds before, with the time since then, and as a miss
      otherwise; an address is known exactly while the name first recorded for it is at most 600 seconds
      old; and it resolves along the newest canonical names that are at most 600 seconds old. */
  lemma MatchesTimestampedMaps(s: seq<DnsPacket>, addr: Bytes, n: nat)
    requires Monotone(s, 0) && forall p | p in s :: WellFormed(p)
    ensures var d, r := ReceiveAll(EMPTY, s), RefRun(START, s);
            && d.log == r.log
            && (Has(d.addrs, addr) <==> Fresh(r.addrs, addr, d.lastTs, CACHE_TTL))
            && (Has(d.addrs, addr) ==> Get(d.addrs, addr) == r.addrs[addr].val)
            && Resolve(d, addr, n) == RefResolve(r, addr, d.lastTs, n)
  {
    hide ReceiveAll, RefRun, Mirrors, Fresh, Resolve, RefResolve;
    StartAgrees();
    RunAgrees(EMPTY, START, s);
    var d, r := ReceiveAll(EMPTY, s), RefRun(START, s);
    LookupAgrees(d.addrs, d.lastTs, CACHE_TTL, r.addrs, NAME_OF, addr);
    ResolveAgrees(d, r, addr, n);
  }

  // ---------------------------------------------- exactly the clocks it holds on

  /** A stream of well-formed packets on such a clock. */
  ghost predicate Stream(s: seq<DnsPacket>, low: int, b: nat) {
    Within(s, low, b, 0) && forall p | p in s :: WellFormed(p)
  }

  function Packet(sec: int, hv: nat, query: bool): DnsPacket {
    DnsPacket(sec, 0, hv, 0, query, "", "", [""], [], false)
  }

  /** Both take the first packet, and go on with the rest. */
  lemma RunsCons(d: Dns, r: Ref, p: DnsPacket, s: seq<DnsPacket>)
    requires d.queries.slots > 0 && d.addrs.slots > 0 && d.names.slots > 0
    requires WellFormed(p) && forall x | x in s :: WellFormed(x)
    ensures ReceiveAll(d, [p] + s) == ReceiveAll(Receive(d, p), s)
    ensures RefRun(r, [p] + s) == RefRun(RefStep(r, p), s)
  {
    hide Receive, RefStep, WellFormed;
    assert ([p] + s)[0] == p && ([p] + s)[1..] == s;
  }

  lemma TwoPackets(q: DnsPacket, p: DnsPacket)
    requires WellFormed(q) && WellFormed(p)
    ensures ReceiveAll(EMPTY, [q, p]) == Receive(Receive(EMPTY, q), p)
    ensures RefRun(START, [q, p]) == RefStep(RefStep(START, q), p)
  {
    hide Receive, RefStep, WellFormed;
    var none: seq<DnsPacket> := [];
    assert [q, p] == [q] + [p] && [p] == [p] + none;
    RunsCons(EMPTY, START, q, [p]);
    RunsCons(Receive(EMPTY, q), RefStep(START, q), p, none);
  }

  lemma ThreePackets(q: DnsPacket, x: DnsPacket, p: DnsPacket)
    requires WellFormed(q) && WellFormed(x) && WellFormed(p)
    ensures ReceiveAll(EMPTY, [q, x, p]) == Receive(Receive(Receive(EMPTY, q), x), p)
    ensures RefRun(START, [q, x, p]) == RefStep(RefStep(RefStep(START, q), x), p)
  {
    hide Receive, RefStep, WellFormed;
    var none: seq<DnsPacket> := [];
    assert [q, x, p] == [q] + [x, p] && [x, p] == [x] + [p] && [p] == [p] + none;
    RunsCons(EMPTY, START, q, [x, p]);
    var d, r := Receive(EMPTY, q), RefStep(START, q);
    RunsCons(d, r, x, [p]);
    RunsCons(Receive(d, x), RefStep(r, x), p, none);
  }

  lemma ModuleStillMatches(q: DnsPacket, p: DnsPacket)
    requires WellFormed(q) && WellFormed(p) && q.query && !p.query && p.answers == []
    requires q.sec == 0 && q.hv == p.hv && q.txId == p.txId
    ensures var log := Receive(Receive(EMPTY, q), p).log;
            |log| == 1 && log[0].DnsTx? && log[0].status == Success
  {
    var d := Receive(EMPTY, q);
    assert d.queries.live == [Timed(Keyed(q.Key(), NewQuery(q)), QUERY_TTL, 0)] && d.lastTs == 0;
    assert Receive(d, p).log == [SuccessMessage(NewQuery(q), p)];
  }

  lemma MachineForgot(q: DnsPacket, p: DnsPacket)
    requires q.query && !p.query && p.sec - q.sec > 120 && q.hv == p.hv && q.txId == p.txId
    ensures var log := RefStep(RefStep(START, q), p).log;
            |log| == 1 && log[0].DnsTx? && log[0].status == Miss
  {
  }

  /** A query of second 0, which the clock takes for "no packet yet", never ages. */
  lemma ZeroTimeKeepsQuery()
    ensures var s := [Packet(0, 0, true), Packet(200, 0, false)];
            Stream(s, 0, 0) && ReceiveAll(EMPTY, s).log != RefRun(START, s).log
  {
    hide Receive, ReceiveAll, RefStep, RefRun;
    var q, p := Packet(0, 0, true), Packet(200, 0, false);
    assert [q, p][1..] == [p] && [p][1..] == [];
    assert Within([p], 0, 0, 0) && Within([q, p], 0, 0, 0);
    TwoPackets(q, p);
    ModuleStillMatches(q, p);
    MachineForgot(q, p);
  }

  lemma SingleExpires(w: Wheel<Keyed<QueryKey, QueryInfo>>, k: nat)
    requires Window(w) && |w.live| == 1 && w.live[0].due < w.tick + k
    ensures Prog(w, k).live == []
  {
    ProgExact(w, k);
    DueFromNone(w.live, w.tick + k);
  }

  lemma FirstQuery(q: DnsPacket)
    requires WellFormed(q) && q.query
    ensures var d := Receive(EMPTY, q);
            && d.queries == Wheel(QUERY_SLOTS, 0, 1, [Timed(Keyed(q.Key(), NewQuery(q)), QUERY_TTL, 0)], [])
            && d.addrs.slots == d.names.slots == CACHE_SLOTS && d.lastTs == q.sec && d.log == []
  {
  }

  /** What the module makes of a query, an unrelated response a second before it, and its response. */
  lemma ModuleForgets(q: DnsPacket, x: DnsPacket, p: DnsPacket)
    requires WellFormed(q) && WellFormed(x) && WellFormed(p) && q.query && !x.query && !p.query
    requires p.Key() == q.Key() != x.Key() && x.sec > 0 && q.sec == x.sec + 1 && p.sec == x.sec + 121
    ensures Receive(Receive(Receive(EMPTY, q), x), p).log == [MissMessage(x), MissMessage(p)]
  {
    FirstQuery(q);
    hide EMPTY, NewQuery, WellFormed, AddAnswers;
    var d := Receive(EMPTY, q);
    var e := Receive(d, x);
    assert e.queries == d.queries && e.lastTs == x.sec && e.log == [MissMessage(x)];
    SingleExpires(e.queries, 121);
    hide Prog;
  }

  /** ... and what the simple machine makes of them. */
  lemma MachineRemembers(q: DnsPacket, x: DnsPacket, p: DnsPacket)
    requires q.query && !x.query && !p.query
    requires p.Key() == q.Key() != x.Key() && p.sec == q.sec + 120
    ensures var log := RefStep(RefStep(RefStep(START, q), x), p).log;
            |log| >= 2 && log[1].DnsTx? && log[1].status == Success
  {
    var r := RefStep(RefStep(START, q), x);
    assert r.log == [MissMessage(x)] && Fresh(r.queries, p.Key(), p.sec, QUERY_TTL);
  }

  /** Seconds that the clock goes back are counted again when it catches up: a query is forgotten early. */
  lemma ClockBackForgetsQuery(low: int)
    requires 0 < low
    ensures var s := [Packet(low + 1, 0, true), Packet(low, 1, false), Packet(low + 121, 0, false)];
            Stream(s, low, 1) && ReceiveAll(EMPTY, s).log != RefRun(START, s).log
  {
    var q, x, p := Packet(low + 1, 0, true), Packet(low, 1, false), Packet(low + 121, 0, false);
    assert [q, x, p][1..] == [x, p] && [x, p][1..] == [p] && [p][1..] == [];
    assert Within([p], low, 1, low + 1) && Within([x, p], low, 1, low + 1) && Within([q, x, p], low, 1, 0);
    ThreePackets(q, x, p);
    ModuleForgets(q, x, p);
    MachineRemembers(q, x, p);
    hide ReceiveAll, RefRun, Receive, RefStep;
    assert MissMessage(p).status == Miss;
  }

  lemma {:induction false} WithinWider(s: seq<DnsPacket>, low: int, b: nat, low': int, b': nat, latest: int)
    requires Within(s, low, b, latest) && low' <= low && b <= b'
    ensures Within(s, low', b', latest)
  {
    if s == [] {
    } else {
      WithinWider(s[1..], low, b, low', b', if s[0].sec > latest then s[0].sec else latest);
    }
  }

  /** The module reports what the simple machine does on every stream whose times are at least `low` and
      at most `b` seconds behind the latest, if and only if all are positive and none goes back. */
  lemma ReportsAgreeIff(low: int, b: nat)
    ensures 0 < low && b == 0
            <==> forall s: seq<DnsPacket> :: Stream(s, low, b) ==> ReceiveAll(EMPTY, s).log == RefRun(START, s).log
  {
    hide ReceiveAll, RefRun, Within, Packet;
    if low <= 0 {
      var s := [Packet(0, 0, true), Packet(200, 0, false)];
      ZeroTimeKeepsQuery();
      WithinWider(s, 0, 0, low, b, 0);
      assert Stream(s, low, b);
    } else if b > 0 {
      var s := [Packet(low + 1, 0, true), Packet(low, 1, false), Packet(low + 121, 0, false)];
      ClockBackForgetsQuery(low);
      WithinWider(s, low, 1, low, b, 0);
      assert Stream(s, low, b);
    } else {
      forall s: seq<DnsPacket> | Stream(s, low, b)
        ensures ReceiveAll(EMPTY, s).log == RefRun(START, s).log
      {
        WithinWider(s, low, 0, 1, 0, 0);
        assert Monotone(s, 0);
        MatchesTimestampedMaps(s, [], 0);
      }
    }
  }

  // ------------------------------------------------------ the machine's own laws

  lemma {:induction false} RefAddrsKeep(m: map<Bytes, Stamp<string>>, answers: seq<Answer>, n: nat, sec: int,
                                        addr: Bytes)
    requires n <= |answers| && Fresh(m, addr, sec, 600)
    ensures var m' := RefAddrs(m, answers, n, sec); addr in m' && m'[addr] == m[addr]
    decreases n
  {
    if n == 0 {
    } else {
      RefAddrsKeep(m, answers, n - 1, sec, addr);
    }
  }

  /** First writer wins: no packet within 600 seconds changes the name or the time of an address. */
  lemma {:induction false} FirstNameStays(r: Ref, s: seq<DnsPacket>, addr: Bytes)
    requires addr in r.addrs && forall p | p in s :: p.sec - r.addrs[addr].at <= 600
    ensures addr in RefRun(r, s).addrs && RefRun(r, s).addrs[addr] == r.addrs[addr]
    decreases |s|
  {
    if s == [] {
    } else {
      RefAddrsKeep(r.addrs, s[0].answers, |s[0].answers|, s[0].sec, addr);
      FirstNameStays(RefStep(r, s[0]), s[1..], addr);
    }
  }

  /** Full-precision times never decrease. */
  ghost predicate FineMonotone(s: seq<DnsPacket>, from: int) {
    s != [] ==> s[0].usec < 1_000_000 && Micros(s[0]) >= from && FineMonotone(s[1..], Micros(s[0]))
  }

  ghost predicate StampsPast(r: Ref, now: int) {
    forall k | k in r.queries ::
      && r.queries[k].val.ts <= now
      && r.queries[k].at * 1_000_000 <= r.queries[k].val.ts < (r.queries[k].at + 1) * 1_000_000
  }

  ghost predicate InTime(log: seq<DnsMessage>) {
    forall m | m in log && m.DnsTx? && m.status == Success ::
      m.latency.Some? && 0 <= m.latency.value < 121 * 1_000_000
  }

  /** Every latency reported lies in [0, 121) seconds. */
  lemma {:induction false} LatencyInTime(r: Ref, s: seq<DnsPacket>, now: int)
    requires StampsPast(r, now) && InTime(r.log) && FineMonotone(s, now)
    ensures InTime(RefRun(r, s).log)
    decreases |s|
  {
    if s == [] {
    } else {
      var p := s[0];
      assert p.sec * 1_000_000 <= Micros(p) < (p.sec + 1) * 1_000_000;
      LatencyInTime(RefStep(r, p), s[1..], Micros(p));
    }
  }

  lemma FineLater(s: seq<DnsPacket>, from: int, earlier: int)
    requires FineMonotone(s, from) && earlier <= from
    ensures FineMonotone(s, earlier)
  {
  }

  lemma {:induction false} FineIsMonotone(s: seq<DnsPacket>, from: int)
    requires FineMonotone(s, from * 1_000_000) && 0 < from && forall p | p in s :: WellFormed(p)
    ensures Monotone(s, from)
    decreases |s|
  {
    if s == [] {
    } else {
      var p := s[0];
      assert p.sec >= from;
      FineLater(s[1..], Micros(p), p.sec * 1_000_000);
      FineIsMonotone(s[1..], p.sec);
    }
  }

  /** From the start, with positive full-precision times that never decrease, every success that the
      module reports has a latency in [0, 121) seconds. */
  lemma ReportedLatencies(s: seq<DnsPacket>)
    requires FineMonotone(s, 1_000_000) && forall p | p in s :: WellFormed(p)
    ensures InTime(ReceiveAll(EMPTY, s).log)
  {
    hide ReceiveAll, RefRun;
    FineIsMonotone(s, 1);
    assert Monotone(s, 0);
    MatchesTimestampedMaps(s, [], 0);
    LatencyInTime(START, s, 1_000_000);
  }
}
