/** The CNAME cache: its live records never form a cycle, so resolution ends where it should. */
module DnsNames {
  import opened Basics
  import opened TimingWheel
  import opened DnsModel

  type Names = Wheel<Keyed<string, string>>

  /** The insertion guard as an invariant of the newest-first live list: when a record was put, no
      record then live had its qname as cname.  So an older record never takes over from a newer one. */
  ghost predicate Guarded(s: seq<Timed<Keyed<string, string>>>) {
    forall i, j | 0 <= i < j < |s| :: s[j].item.key != s[i].item.val
  }

  lemma {:induction false} GuardedDueFrom(s: seq<Timed<Keyed<string, string>>>, d: nat)
    requires Guarded(s)
    ensures Guarded(DueFrom(s, d))
    decreases |s|
  {
    if s == [] {
    } else {
      GuardedDueFrom(s[1..], d);
      forall x | x in DueFrom(s[1..], d)
        ensures x.item.key != s[0].item.val
      {
        DueFromMember(s[1..], d, x);
        var k :| 0 <= k < |s| - 1 && s[1..][k] == x;
        assert s[k + 1] == x;
      }
    }
  }

  lemma PutUnlessGuarded(w: Names, q: string, c: string)
    requires Guarded(w.live) && Inv(w)
    ensures Guarded(PutUnless(w, q, CACHE_TTL, c, q).live) && Inv(PutUnless(w, q, CACHE_TTL, c, q))
  {
  }

  lemma {:induction false} AnswersGuarded(d: Dns, p: DnsPacket, tsSec: int, n: nat)
    requires n <= |p.answers| && Guarded(d.names.live) && Inv(d.names)
    ensures var d' := AddAnswers(d, p, tsSec, n);
            Guarded(d'.names.live) && Inv(d'.names)
    decreases n
  {
    if n == 0 {
    } else {
      AnswersGuarded(d, p, tsSec, n - 1);
      var a := p.answers[n - 1];
      var d1 := AddAnswers(d, p, tsSec, n - 1);
      PutUnlessGuarded(d1.names, a.name, a.text);
      hide Guarded, Inv, PutUnless;
      assert AddAnswers(d, p, tsSec, n) == AddAnswer(d1, p, tsSec, a);
    }
  }

  lemma ProgressGuarded(d: Dns, sec: int)
    requires d.queries.slots > 0 && d.addrs.slots > 0
    requires Guarded(d.names.live) && Inv(d.names)
    ensures Guarded(Progress(d, sec).names.live) && Inv(Progress(d, sec).names)
  {
    if d.lastTs > 0 && sec > d.lastTs {
      ProgExact(d.names, sec - d.lastTs);
      ProgKeepsInv(d.names, sec - d.lastTs);
      GuardedDueFrom(d.names.live, d.names.tick + (sec - d.lastTs));
    }
  }

  lemma ReceiveGuarded(d: Dns, p: DnsPacket)
    requires d.queries.slots > 0 && d.addrs.slots > 0 && WellFormed(p)
    requires Guarded(d.names.live) && Inv(d.names)
    ensures Guarded(Receive(d, p).names.live) && Inv(Receive(d, p).names)
  {
    ProgressGuarded(d, p.sec);
    hide Progress, AddAnswers, Guarded;
    var d1 := Progress(d, p.sec);
    var i := FindKey(d1.queries.live, p.Key());
    if !p.query && i < |d1.queries.live| {
      AnswersGuarded(Match(d1, i, p), p, Seconds(d1.queries.live[i].item.val.ts), |p.answers|);
    }
  }

  lemma {:induction false} RunKeepsGuarded(d: Dns, s: seq<DnsPacket>)
    requires d.queries.slots > 0 && d.addrs.slots > 0 && forall p | p in s :: WellFormed(p)
    requires Guarded(d.names.live) && Inv(d.names)
    ensures Guarded(ReceiveAll(d, s).names.live) && Inv(ReceiveAll(d, s).names)
    decreases |s|
  {
    if s == [] {
    } else {
      ReceiveGuarded(d, s[0]);
      RunKeepsGuarded(Receive(d, s[0]), s[1..]);
    }
  }

  /** The guard's invariant holds after every mix of insertions and expiries, on any clock. */
  lemma RunGuarded(s: seq<DnsPacket>)
    requires forall p | p in s :: WellFormed(p)
    ensures Guarded(ReceiveAll(EMPTY, s).names.live) && Inv(ReceiveAll(EMPTY, s).names)
  {
    RunKeepsGuarded(EMPTY, s);
  }

  // ---------------------------------------------------------------- acyclicity

  ghost predicate Index(s: seq<Timed<Keyed<string, string>>>, i: int) {
    0 <= i < |s|
  }

  /** A walk along live records: each record's qname is the cname of the next. */
  ghost predicate Walk(s: seq<Timed<Keyed<string, string>>>, path: seq<nat>) {
    && path != [] && (forall k | 0 <= k < |path| :: Index(s, path[k]))
    && forall k | 0 <= k < |path| - 1 :: s[path[k]].item.val == s[path[k + 1]].item.key
  }

  /** A walk that comes back to the name it started from. */
  ghost predicate Cycle(s: seq<Timed<Keyed<string, string>>>, path: seq<nat>) {
    Walk(s, path) && s[path[|path| - 1]].item.val == s[path[0]].item.key
  }

  ghost predicate SelfNaming(s: seq<Timed<Keyed<string, string>>>) {
    exists i :: Index(s, i) && s[i].item.key == s[i].item.val
  }

  /** Every hop goes to a record put later, or stays on a record that names itself. */
  lemma {:induction false} WalksGetNewer(s: seq<Timed<Keyed<string, string>>>, path: seq<nat>)
    requires Guarded(s) && Walk(s, path)
    ensures path[|path| - 1] <= path[0]
    ensures path[|path| - 1] == path[0] ==> forall k | 0 <= k < |path| :: path[k] == path[0]
    decreases |path|
  {
    if |path| > 1 {
      var front := path[..|path| - 1];
      assert forall k | 0 <= k < |front| :: front[k] == path[k];
      WalksGetNewer(s, front);
      var a, b := path[|path| - 2], path[|path| - 1];
      assert s[path[|path| - 2]].item.val == s[path[|path| - 2 + 1]].item.key;
      assert b <= a;
    }
  }

  /** The live CNAME records have a cycle if and only if one of them names itself. */
  lemma AcyclicUnlessSelfNaming(s: seq<Timed<Keyed<string, string>>>)
    requires Guarded(s)
    ensures (exists path :: Cycle(s, path)) <==> SelfNaming(s)
  {
    if path :| Cycle(s, path) {
      var round := path + [path[0]];
      forall k | 0 <= k < |round|
        ensures Index(s, round[k])
        ensures k < |round| - 1 ==> s[round[k]].item.val == s[round[k + 1]].item.key
      {
        if k < |path| - 1 {
          assert s[path[k]].item.val == s[path[k + 1]].item.key;
        }
      }
      WalksGetNewer(s, round);
      assert round[1] == round[0] && Index(s, round[0]);
      assert s[round[0]].item.val == s[round[0 + 1]].item.key;
    }
    if SelfNaming(s) {
      var i :| Index(s, i) && s[i].item.key == s[i].item.val;
      assert Cycle(s, [i]);
    }
  }

  /** After every run, on any clock, the live CNAME records have a cycle if and only if one names itself. */
  lemma RunCyclicIffSelfNaming(s: seq<DnsPacket>)
    requires forall p | p in s :: WellFormed(p)
    ensures var live := ReceiveAll(EMPTY, s).names.live;
            (exists path :: Cycle(live, path)) <==> SelfNaming(live)
  {
    hide Guarded, Cycle, SelfNaming;
    RunGuarded(s);
    AcyclicUnlessSelfNaming(ReceiveAll(EMPTY, s).names.live);
  }

  /** No CNAME answer of the packet names itself. */
  predicate NoSelfAnswer(p: DnsPacket) {
    forall a | a in p.answers :: a.rtype == TYPE_CNAME ==> a.text != a.name
  }

  lemma {:induction false} AnswersKeepProper(d: Dns, p: DnsPacket, tsSec: int, n: nat)
    requires n <= |p.answers| && NoSelfAnswer(p) && !SelfNaming(d.names.live)
    ensures !SelfNaming(AddAnswers(d, p, tsSec, n).names.live)
    decreases n
  {
    if n == 0 {
    } else {
      AnswersKeepProper(d, p, tsSec, n - 1);
      var w, a := AddAnswers(d, p, tsSec, n - 1).names, p.answers[n - 1];
      assert a in p.answers;
      var w' := AddAnswers(d, p, tsSec, n).names;
      forall i | Index(w'.live, i)
        ensures w'.live[i].item.key != w'.live[i].item.val
      {
        if w' != w {
          assert i > 0 ==> Index(w.live, i - 1) && w'.live[i] == w.live[i - 1];
        } else {
          assert Index(w.live, i);
        }
      }
    }
  }

  lemma ProgressKeepsProper(d: Dns, sec: int)
    requires d.queries.slots > 0 && d.addrs.slots > 0
    requires Window(d.names) && !SelfNaming(d.names.live)
    ensures !SelfNaming(Progress(d, sec).names.live)
  {
    if d.lastTs > 0 && sec > d.lastTs {
      var live := Progress(d, sec).names.live;
      ProgExact(d.names, sec - d.lastTs);
      forall i | Index(live, i)
        ensures live[i].item.key != live[i].item.val
      {
        DueFromMember(d.names.live, d.names.tick + (sec - d.lastTs), live[i]);
        var j :| 0 <= j < |d.names.live| && d.names.live[j] == live[i];
        assert Index(d.names.live, j);
      }
    }
  }

  lemma ReceiveKeepsProper(d: Dns, p: DnsPacket)
    requires d.queries.slots > 0 && d.addrs.slots > 0 && WellFormed(p) && NoSelfAnswer(p)
    requires Window(d.names) && !SelfNaming(d.names.live)
    ensures !SelfNaming(Receive(d, p).names.live)
  {
    ProgressKeepsProper(d, p.sec);
    hide Progress, AddAnswers, SelfNaming;
    var d1 := Progress(d, p.sec);
    var i := FindKey(d1.queries.live, p.Key());
    if !p.query && i < |d1.queries.live| {
      AnswersKeepProper(Match(d1, i, p), p, Seconds(d1.queries.live[i].item.val.ts), |p.answers|);
    }
  }

  lemma {:induction false} RunKeepsProper(d: Dns, s: seq<DnsPacket>)
    requires d.queries.slots > 0 && d.addrs.slots > 0 && forall p | p in s :: WellFormed(p) && NoSelfAnswer(p)
    requires Guarded(d.names.live) && Inv(d.names) && !SelfNaming(d.names.live)
    ensures !SelfNaming(ReceiveAll(d, s).names.live)
    decreases |s|
  {
    if s == [] {
    } else {
      ReceiveGuarded(d, s[0]);
      ReceiveKeepsProper(d, s[0]);
      RunKeepsProper(Receive(d, s[0]), s[1..]);
    }
  }

  /** If no answer ever names itself, the live CNAME records are at every moment free of cycles. */
  lemma NeverCyclic(s: seq<DnsPacket>, path: seq<nat>)
    requires forall p | p in s :: WellFormed(p) && NoSelfAnswer(p)
    ensures !Cycle(ReceiveAll(EMPTY, s).names.live, path)
  {
    RunGuarded(s);
    RunKeepsProper(EMPTY, s);
    AcyclicUnlessSelfNaming(ReceiveAll(EMPTY, s).names.live);
  }

  /** One that does, in the response to the query of any name, and the cycle it makes. */
  lemma SelfAnswerCycles(name: string)
    ensures var q := DnsPacket(1, 0, 0, 0, true, "", "", [name], [], false);
            var p := DnsPacket(1, 0, 0, 0, false, "", "", [name], [Answer(name, TYPE_CNAME, "", [], name)], false);
            WellFormed(q) && WellFormed(p) && Cycle(ReceiveAll(EMPTY, [q, p]).names.live, [0])
  {
    var q := DnsPacket(1, 0, 0, 0, true, "", "", [name], [], false);
    var p := DnsPacket(1, 0, 0, 0, false, "", "", [name], [Answer(name, TYPE_CNAME, "", [], name)], false);
    var none: seq<DnsPacket> := [q, p][1..][1..];
    assert [q, p][1..] == [p] && [p][1..] == none == [];
    var d := Receive(EMPTY, q);
    assert d.queries.live == [Timed(Keyed(q.Key(), NewQuery(q)), QUERY_TTL, 0)];
    var d1 := Match(Progress(d, 1), 0, p);
    assert AddAnswers(d1, p, 1, 0) == d1;
    assert AddAnswers(d1, p, 1, 1) == AddAnswer(d1, p, 1, p.answers[0]);
    var e := Receive(d, p);
    assert e.names.live == [Timed(Keyed(name, name), CACHE_TTL, 0)];
    assert ReceiveAll(EMPTY, [q, p]) == ReceiveAll(d, [p]) == e;
    assert Index(e.names.live, 0);
  }

  // ---------------------------------------------------------------- resolution

  /** Resolving in two goes is resolving in one: each hop depends on the name reached only. */
  lemma {:induction false} ChaseAdd(w: Names, name: string, a: nat, b: nat)
    ensures Chase(w, Chase(w, name, a), b) == Chase(w, name, a + b)
    decreases a
  {
    if a == 0 {
    } else if !Has(w, name) {
      assert Chase(w, name, a) == name;
    } else {
      ChaseAdd(w, Get(w, name), a - 1, b);
    }
  }

  /** Each hop of a resolution finds a strictly newer record, if none names itself. */
  lemma NextIsNewer(s: seq<Timed<Keyed<string, string>>>, name: string)
    requires Guarded(s) && !SelfNaming(s) && FindKey(s, name) < |s|
    ensures var i := FindKey(s, name);
            var j := FindKey(s, s[i].item.val);
            j < i || j == |s|
  {
    var i := FindKey(s, name);
    var j := FindKey(s, s[i].item.val);
    assert Index(s, i);
  }

  /** With at least as many hops as live records, resolution stops at a name with no live record. */
  lemma {:induction false} ChaseEnds(w: Names, name: string, n: nat)
    requires Guarded(w.live) && !SelfNaming(w.live)
    requires n >= |w.live| || n > FindKey(w.live, name)
    ensures !Has(w, Chase(w, name, n))
    decreases n
  {
    if Has(w, name) && n > 0 {
      NextIsNewer(w.live, name);
      var i := FindKey(w.live, name);
      if Has(w, Get(w, name)) {
        ChaseEnds(w, Get(w, name), n - 1);
      } else {
        assert Chase(w, name, n) == Get(w, name);
      }
    }
  }

  /** If no answer ever names itself, an address resolves to the end of its chain of live records,
      given as many hops as there are live records. */
  lemma ResolutionComplete(s: seq<DnsPacket>, addr: Bytes, n: nat)
    requires forall p | p in s :: WellFormed(p) && NoSelfAnswer(p)
    ensures var d := ReceiveAll(EMPTY, s);
            n >= |d.names.live| && Has(d.addrs, addr) ==> !Has(d.names, Resolve(d, addr, n))
  {
    RunGuarded(s);
    RunKeepsProper(EMPTY, s);
    var d := ReceiveAll(EMPTY, s);
    if n >= |d.names.live| && Has(d.addrs, addr) {
      ChaseEnds(d.names, Get(d.addrs, addr), n);
    }
  }
}
