/** The pointer structure: N slot chains, B bucket lists and one expired chain over shared nodes. */
module LruHash {
  import opened TimingWheel

  const DEFAULT_BUCKET_SIZE: nat := 1031

  /** What a node stands for.  List heads (`Root`) hash to 0 and match no key. */
  datatype Entry<+K, +T> = Root | Entry(hv: nat, key: K, item: T)

  // ------------------------------------------------------------------- chains

  function At<K(==), T>(c: seq<Node<K, T>>, i: nat): Node?<K, T> {
    if i < |c| then c[i] else null
  }

  function Before<K(==), T>(root: Node<K, T>, c: seq<Node<K, T>>, i: nat): Node<K, T>
    requires i <= |c|
  {
    if i == 0 then root else c[i - 1]
  }

  ghost predicate NoDup<T>(c: seq<T>) {
    forall i, j | 0 <= i < j < |c| :: c[i] != c[j]
  }

  /** `c` is the `link` chain hanging off `root`: acyclic and ending in null. */
  ghost predicate Linked<K, T>(root: Node<K, T>, c: seq<Node<K, T>>)
    reads root`link, (set n | n in c)`link
  {
    && NoDup(c) && root !in c
    && root.link == At(c, 0)
    && forall i | 0 <= i < |c| :: c[i].link == At(c, i + 1)
  }

  /** `c` is the `next` chain hanging off `root`, and `prev` is its inverse. */
  ghost predicate Threaded<K, T>(root: Node<K, T>, c: seq<Node<K, T>>)
    reads root`next, (set n | n in c)`next, (set n | n in c)`prev
  {
    && NoDup(c) && root !in c
    && root.next == At(c, 0)
    && (forall i | 0 <= i < |c| :: c[i].next == At(c, i + 1))
    && (forall i | 0 <= i < |c| :: c[i].prev == Before(root, c, i))
  }

  /** Index of the first node of `c` with hash `hv` and key `key`, or |c|. */
  function FirstMatch<K(==), T>(c: seq<Node<K, T>>, hv: nat, key: K): (i: nat)
    ensures i <= |c|
    ensures i < |c| ==> c[i].Matches(hv, key)
    ensures forall j | 0 <= j < i :: !c[j].Matches(hv, key)
  {
    if c == [] || c[0].Matches(hv, key) then 0 else 1 + FirstMatch(c[1..], hv, key)
  }

  lemma WithoutChain<K, T>(root: Node<K, T>, c: seq<Node<K, T>>, i: nat)
    requires NoDup(c) && root !in c && i < |c|
    ensures NoDup(Without(c, i)) && root !in Without(c, i)
    ensures forall j | 0 <= j < |c| && j != i :: c[j] != c[i]
  {
  }

  /** Neighbours in a list without node `i`, in terms of the list with it. */
  lemma WithoutNeighbours<K, T>(root: Node<K, T>, c: seq<Node<K, T>>, i: nat, j: nat)
    requires i < |c| && j < |Without(c, i)|
    ensures var d, k := Without(c, i), if j < i then j else j + 1;
            && d[j] == c[k]
            && At(d, j + 1) == (if k + 1 == i then At(c, i + 1) else At(c, k + 1))
            && Before(root, d, j) == (if k == i + 1 then Before(root, c, i) else Before(root, c, k))
  {
  }

  class Node<K(==), T> {
    var next: Node?<K, T>
    var prev: Node?<K, T>
    var link: Node?<K, T>
    const entry: Entry<K, T>

    constructor (entry: Entry<K, T>)
      ensures this.entry == entry
      ensures next == null && prev == null && link == null
    {
      this.entry := entry;
      next, prev, link := null, null, null;
    }

    function Hash(): nat {
      if entry.Root? then 0 else entry.hv
    }

    predicate Match(key: K) {
      entry.Entry? && entry.key == key
    }

    predicate Matches(hv: nat, key: K) {
      Hash() == hv && Match(key)
    }

    method Attach(node: Node<K, T>, ghost c: seq<Node<K, T>>)
      requires Threaded(this, c) && node != this && node !in c
      modifies this`next, node`next, node`prev, (set n | n in c)`prev
      ensures Threaded(this, [node] + c)
    {
      var nxt := this.next;
      node.prev := this;
      node.next := nxt;
      this.next := node;
      if nxt != null {
        nxt.prev := node;
      }
      ghost var d := [node] + c;
      assert NoDup(d) && this !in d;
      forall j | 0 <= j < |d|
        ensures d[j].next == At(d, j + 1) && d[j].prev == Before(this, d, j)
      {
        if j > 0 {
          assert d[j] == c[j - 1] && c[j - 1] != node;
        }
      }
    }

    method Detach(ghost root: Node<K, T>, ghost c: seq<Node<K, T>>, ghost i: nat)
      requires Threaded(root, c) && i < |c| && c[i] == this
      modifies root`next, (set n | n in c)`next, (set n | n in c)`prev
      ensures Threaded(root, Without(c, i))
      ensures next == null && prev == null
    {
      var nxt := this.next;
      var prv := this.prev;
      assert nxt == At(c, i + 1) && (nxt != null ==> nxt in c);
      assert prv == Before(root, c, i) && (prv == root || prv in c);
      if nxt != null {
        nxt.prev := prv;
      }
      if prv != null {
        prv.next := nxt;
      }
      this.next := null;
      this.prev := null;
      WithoutChain(root, c, i);
      ghost var d := Without(c, i);
      forall j | 0 <= j < |d|
        ensures d[j].next == At(d, j + 1) && d[j].prev == Before(root, d, j)
      {
        WithoutNeighbours(root, c, i, j);
        ghost var k := if j < i then j else j + 1;
        assert c[k] != this && (k + 1 == i <==> c[k] == prv) && (k == i + 1 <==> c[k] == nxt);
      }
    }

    method PushLink(node: Node<K, T>, ghost c: seq<Node<K, T>>)
      requires Linked(this, c) && node != this && node !in c
      modifies this`link, node`link
      ensures Linked(this, [node] + c)
    {
      var nxt := this.link;
      node.link := nxt;
      this.link := node;
    }

    method PopLink(ghost c: seq<Node<K, T>>) returns (node: Node?<K, T>)
      requires Linked(this, c)
      modifies this`link
      ensures node == At(c, 0)
      ensures Linked(this, if c == [] then [] else c[1..])
    {
      node := this.link;
      if node != null {
        var nxt := node.link;
        this.link := nxt;
      }
    }

    method Search(hv: nat, key: K, ghost c: seq<Node<K, T>>) returns (r: Node?<K, T>)
      requires Threaded(this, c)
      ensures r == At(c, FirstMatch(c, hv, key))
    {
      var node := this.next;
      ghost var i := 0;
      while node != null
        invariant i <= |c| && node == At(c, i)
        invariant forall j | 0 <= j < i :: !c[j].Matches(hv, key)
        decreases |c| - i
      {
        if node.Hash() == hv && node.Match(key) {
          return node;
        }
        node := node.next;
        i := i + 1;
      }
      return null;
    }
  }

  // --------------------------------------------------- families of chains

  ghost predicate Disjoint<T>(a: seq<T>, b: seq<T>) {
    forall x | x in a :: x !in b
  }

  /** `cs` splits nodes of `u` among list heads that are themselves outside `u`. */
  ghost predicate Separate<K, T>(roots: seq<Node<K, T>>, cs: seq<seq<Node<K, T>>>, u: set<Node<K, T>>) {
    && |cs| == |roots| && NoDup(roots)
    && (forall r | r in roots :: r !in u)
    && (forall k | 0 <= k < |cs| :: forall x | x in cs[k] :: x in u)
    && (forall k, l | 0 <= k < l < |cs| :: Disjoint(cs[k], cs[l]))
  }

  ghost predicate LinksOk<K, T>(roots: seq<Node<K, T>>, cs: seq<seq<Node<K, T>>>, u: set<Node<K, T>>)
    reads (set r | r in roots)`link, u`link
  {
    && Separate(roots, cs, u)
    && forall k | 0 <= k < |cs| :: Linked(roots[k], cs[k])
  }

  ghost predicate ThreadsOk<K, T>(roots: seq<Node<K, T>>, cs: seq<seq<Node<K, T>>>, u: set<Node<K, T>>)
    reads (set r | r in roots)`next, u`next, u`prev
  {
    && Separate(roots, cs, u)
    && forall k | 0 <= k < |cs| :: Threaded(roots[k], cs[k])
  }

  lemma SeparateCons<K, T>(roots: seq<Node<K, T>>, cs: seq<seq<Node<K, T>>>, u: set<Node<K, T>>, k: nat, x: Node<K, T>)
    requires Separate(roots, cs, u) && k < |roots| && x !in roots && x !in u
    ensures Separate(roots, cs[k := [x] + cs[k]], u + {x})
  {
  }

  lemma SeparateShrink<K, T>(roots: seq<Node<K, T>>, cs: seq<seq<Node<K, T>>>, u: set<Node<K, T>>, k: nat, i: nat)
    requires Separate(roots, cs, u) && k < |roots| && i < |cs[k]| && NoDup(cs[k])
    ensures Separate(roots, cs[k := Without(cs[k], i)], u - {cs[k][i]})
  {
    var d := cs[k := Without(cs[k], i)];
    forall l | 0 <= l < |d|
      ensures forall x | x in d[l] :: x in u - {cs[k][i]} && x in cs[l]
    {
    }
  }

  /** Pushes `node` on chain `k`: TimeSlot::push and the expired chain's push_link. */
  method PushOn<K(==), T>(root: Node<K, T>, node: Node<K, T>, ghost roots: seq<Node<K, T>>, ghost k: nat,
                          ghost cs: seq<seq<Node<K, T>>>, ghost u: set<Node<K, T>>)
    requires LinksOk(roots, cs, u) && k < |roots| && roots[k] == root && node !in roots && node !in u
    modifies root`link, node`link
    ensures LinksOk(roots, cs[k := [node] + cs[k]], u + {node})
  {
    SeparateCons(roots, cs, u, k, node);
    root.PushLink(node, cs[k]);
    ghost var d := cs[k := [node] + cs[k]];
    forall l | 0 <= l < |d|
      ensures Linked(roots[l], d[l])
    {
      assert old(Linked(roots[l], cs[l]));
    }
  }

  /** Pops the first node of chain `k`: TimeSlot::pop. */
  method PopFrom<K(==), T>(root: Node<K, T>, ghost roots: seq<Node<K, T>>, ghost k: nat,
                           ghost cs: seq<seq<Node<K, T>>>, ghost u: set<Node<K, T>>)
    returns (node: Node?<K, T>)
    requires LinksOk(roots, cs, u) && k < |roots| && roots[k] == root
    modifies root`link
    ensures node == At(cs[k], 0)
    ensures node == null ==> LinksOk(roots, cs, u)
    ensures node != null ==> node in u && node !in roots && LinksOk(roots, cs[k := cs[k][1..]], u - {node})
  {
    node := root.PopLink(cs[k]);
    ghost var d := if cs[k] == [] then cs else cs[k := cs[k][1..]];
    forall l | 0 <= l < |d|
      ensures Linked(roots[l], d[l])
    {
      assert old(Linked(roots[l], cs[l]));
      assert l != k ==> roots[l] != root && root !in cs[l];
    }
    if node != null {
      SeparateShrink(roots, cs, u, k, 0);
      hide Separate, Linked;
      assert node == cs[k][0] && node in cs[k] && Without(cs[k], 0) == cs[k][1..];
    }
  }

  /** Puts `node` at the head of list `k`: Bucket::attach. */
  method AttachTo<K(==), T>(root: Node<K, T>, node: Node<K, T>, ghost roots: seq<Node<K, T>>, ghost k: nat,
                            ghost cs: seq<seq<Node<K, T>>>, ghost u: set<Node<K, T>>)
    requires ThreadsOk(roots, cs, u) && k < |roots| && roots[k] == root && node !in roots && node !in u
    modifies root`next, node`next, node`prev, u`prev
    ensures ThreadsOk(roots, cs[k := [node] + cs[k]], u + {node})
  {
    SeparateCons(roots, cs, u, k, node);
    root.Attach(node, cs[k]);
    ghost var d := cs[k := [node] + cs[k]];
    forall l | 0 <= l < |d|
      ensures Threaded(roots[l], d[l])
    {
      assert old(Threaded(roots[l], cs[l]));
      assert l != k ==> Disjoint(cs[l], cs[k]);
    }
  }

  /** Takes node `i` out of list `k`, wherever in the list it is. */
  method DetachFrom<K(==), T>(node: Node<K, T>, ghost roots: seq<Node<K, T>>, ghost k: nat, ghost i: nat,
                              ghost cs: seq<seq<Node<K, T>>>, ghost u: set<Node<K, T>>)
    requires ThreadsOk(roots, cs, u) && k < |roots| && i < |cs[k]| && cs[k][i] == node
    modifies {roots[k]}`next, u`next, u`prev
    ensures ThreadsOk(roots, cs[k := Without(cs[k], i)], u - {node})
  {
    SeparateShrink(roots, cs, u, k, i);
    node.Detach(roots[k], cs[k], i);
    ghost var d := cs[k := Without(cs[k], i)];
    forall l | 0 <= l < |d|
      ensures Threaded(roots[l], d[l])
    {
      assert old(Threaded(roots[l], cs[l]));
      assert l != k ==> Disjoint(cs[l], cs[k]);
    }
  }

  // --------------------------------------------------- live items in a bucket

  function Items<T>(s: seq<Timed<T>>): (r: seq<T>)
    ensures |r| == |s|
  {
    seq(|s|, i requires 0 <= i < |s| => s[i].item)
  }

  lemma ItemsCons<T>(x: Timed<T>, s: seq<Timed<T>>)
    ensures Items([x] + s) == [x.item] + Items(s)
  {
  }

  lemma SlotCons<T>(x: Timed<T>, s: seq<Timed<T>>, n: nat, k: nat)
    requires n > 0
    ensures Items(InSlot([x] + s, n, k))
         == if x.due % n == k then [x.item] + Items(InSlot(s, n, k)) else Items(InSlot(s, n, k))
  {
    assert ([x] + s)[1..] == s;
  }

  function InBucket<K(==), T>(s: seq<Timed<Node<K, T>>>, n: nat, b: nat): seq<Timed<Node<K, T>>>
    requires n > 0
  {
    if s == [] then []
    else if s[0].item.Hash() % n == b then [s[0]] + InBucket(s[1..], n, b)
    else InBucket(s[1..], n, b)
  }

  lemma BucketCons<K, T>(x: Timed<Node<K, T>>, s: seq<Timed<Node<K, T>>>, n: nat, b: nat)
    requires n > 0
    ensures Items(InBucket([x] + s, n, b))
         == if x.item.Hash() % n == b then [x.item] + Items(InBucket(s, n, b)) else Items(InBucket(s, n, b))
  {
    assert ([x] + s)[1..] == s;
  }

  lemma {:induction false} BucketConcat<K, T>(a: seq<Timed<Node<K, T>>>, c: seq<Timed<Node<K, T>>>, n: nat, b: nat)
    requires n > 0
    ensures InBucket(a + c, n, b) == InBucket(a, n, b) + InBucket(c, n, b)
  {
    if a == [] {
      assert a + c == c;
    } else {
      BucketConcat(a[1..], c, n, b);
      assert (a + c)[0] == a[0] && (a + c)[1..] == a[1..] + c;
      assert [a[0]] + InBucket(a[1..], n, b) + InBucket(c, n, b)
          == [a[0]] + (InBucket(a[1..], n, b) + InBucket(c, n, b));
    }
  }

  /** Taking item `i` out of the live list takes it out of its own bucket only. */
  lemma BucketWithout<K, T>(s: seq<Timed<Node<K, T>>>, i: nat, n: nat, b: nat)
    requires n > 0 && i < |s|
    ensures var k := |InBucket(s[..i], n, b)|;
            if s[i].item.Hash() % n == b
            then k < |InBucket(s, n, b)| && InBucket(s, n, b)[k] == s[i]
              && InBucket(Without(s, i), n, b) == Without(InBucket(s, n, b), k)
            else InBucket(Without(s, i), n, b) == InBucket(s, n, b)
  {
    assert s == s[..i] + ([s[i]] + s[i + 1..]);
    BucketConcat(s[..i], [s[i]] + s[i + 1..], n, b);
    BucketConcat([s[i]], s[i + 1..], n, b);
    BucketConcat(s[..i], s[i + 1..], n, b);
  }

  lemma {:induction false} BucketMember<K, T>(s: seq<Timed<Node<K, T>>>, n: nat, b: nat, x: Timed<Node<K, T>>)
    requires n > 0
    ensures x in InBucket(s, n, b) <==> x in s && x.item.Hash() % n == b
  {
    if s == [] {
    } else {
      BucketMember(s[1..], n, b, x);
      assert s == [s[0]] + s[1..];
    }
  }

  /** The first match in the live list is the match put last. */
  lemma MatchIsNewest<K, T>(w: Wheel<Node<K, T>>, hv: nat, key: K)
    requires Inv(w)
    ensures var i := FirstMatch(Items(w.live), hv, key);
            && (i < |w.live| ==> forall j | 0 <= j < |w.live| && w.live[j].item.Matches(hv, key) ::
                                   w.live[j].serial <= w.live[i].serial)
            && (i == |w.live| ==> forall x | x in w.live :: !x.item.Matches(hv, key))
  {
    var i := FirstMatch(Items(w.live), hv, key);
    forall j | 0 <= j < i
      ensures !w.live[j].item.Matches(hv, key)
    {
      assert Items(w.live)[j] == w.live[j].item;
    }
  }

  /** A scan for a node with this hash and key that is not past its deadline; its index, or |s|. */
  function FirstUnexpired<K(==), T>(s: seq<Timed<Node<K, T>>>, now: nat, hv: nat, key: K): (i: nat)
    ensures i <= |s|
    ensures i < |s| ==> s[i].due >= now && s[i].item.Matches(hv, key)
    ensures forall j | 0 <= j < i :: s[j].due < now || !s[j].item.Matches(hv, key)
  {
    if s == [] || (s[0].due >= now && s[0].item.Matches(hv, key)) then 0
    else 1 + FirstUnexpired(s[1..], now, hv, key)
  }

  lemma {:induction false} ScanSkipsExpired<K, T>(s: seq<Timed<Node<K, T>>>, now: nat, hv: nat, key: K)
    ensures var c, i := Items(DueFrom(s, now)), FirstUnexpired(s, now, hv, key);
            At(c, FirstMatch(c, hv, key)) == if i < |s| then s[i].item else null
  {
    if s == [] {
    } else {
      ScanSkipsExpired(s[1..], now, hv, key);
      if s[0].due >= now {
        ItemsCons(s[0], DueFrom(s[1..], now));
        assert Items(DueFrom(s, now))[1..] == Items(DueFrom(s[1..], now));
      }
    }
  }

  /** Over every run of a new table, what a lookup finds is the node put last, since any purge, that
      matches and is not past its deadline; and nothing if there is none. */
  lemma FoundIsNewestUnexpired<K, T>(n: nat, ops: seq<Op<Node<K, T>>>, hv: nat, key: K)
    requires n > 0
    ensures var c, p := Items(RunOf(n, ops).wheel.live), PastOf(n, ops);
            var i := FirstUnexpired(p.since, p.tick, hv, key);
            At(c, FirstMatch(c, hv, key)) == if i < |p.since| then p.since[i].item else null
  {
    LiveIsUnexpiredPast(n, ops);
    ScanSkipsExpired(PastOf(n, ops).since, PastOf(n, ops).tick, hv, key);
  }

  lemma MatchCons<K, T>(x: Node<K, T>, c: seq<Node<K, T>>, hv: nat, key: K)
    ensures At([x] + c, FirstMatch([x] + c, hv, key))
         == if x.Matches(hv, key) then x else At(c, FirstMatch(c, hv, key))
  {
    assert ([x] + c)[1..] == c;
  }

  /** Looking in one bucket finds what looking through everything live would find. */
  lemma {:induction false} MatchInBucket<K, T>(s: seq<Timed<Node<K, T>>>, n: nat, hv: nat, key: K)
    requires n > 0
    ensures var c := Items(InBucket(s, n, hv % n));
            At(c, FirstMatch(c, hv, key)) == At(Items(s), FirstMatch(Items(s), hv, key))
  {
    if s == [] {
    } else {
      var x, rest := s[0], s[1..];
      hide Items, FirstMatch, At;
      assert s == [x] + rest;
      MatchInBucket(rest, n, hv, key);
      ItemsCons(x, rest);
      MatchCons(x.item, Items(rest), hv, key);
      BucketCons(x, rest, n, hv % n);
      MatchCons(x.item, Items(InBucket(rest, n, hv % n)), hv, key);
    }
  }

  // -------------------------------------------------- the chains of a wheel

  function SlotChains<K, T>(w: Wheel<Node<K, T>>): (cs: seq<seq<Node<K, T>>>)
    requires w.slots > 0
    ensures |cs| == w.slots
  {
    seq(w.slots, k requires 0 <= k < w.slots => Items(InSlot(w.live, w.slots, k)))
  }

  /** All `link` chains: one for each slot, then the expired chain. */
  function LinkChains<K, T>(w: Wheel<Node<K, T>>): (cs: seq<seq<Node<K, T>>>)
    requires w.slots > 0
    ensures |cs| == w.slots + 1
  {
    SlotChains(w) + [Items(w.expired)]
  }

  function BucketChains<K(==), T>(w: Wheel<Node<K, T>>, n: nat): (cs: seq<seq<Node<K, T>>>)
    requires n > 0
    ensures |cs| == n
  {
    seq(n, b requires 0 <= b < n => Items(InBucket(w.live, n, b)))
  }

  function Members<T(==)>(s: seq<Timed<T>>): set<T> {
    set x | x in Items(s)
  }

  ghost predicate OnChain<T>(cs: seq<seq<T>>, k: int, x: T) {
    0 <= k < |cs| && x in cs[k]
  }

  lemma LiveItem<T>(s: seq<Timed<T>>, x: T) returns (y: Timed<T>)
    requires x in Items(s)
    ensures y in s && y.item == x
  {
    var i :| 0 <= i < |s| && Items(s)[i] == x;
    y := s[i];
  }

  lemma ItemOf<T>(s: seq<Timed<T>>, y: Timed<T>)
    requires y in s
    ensures y.item in Items(s)
  {
    var i :| 0 <= i < |s| && s[i] == y;
    assert Items(s)[i] == y.item;
  }

  /** The slot chains cover the live items: a node is on one of them if and only if it is live. */
  lemma SlotsCover<K, T>(w: Wheel<Node<K, T>>, x: Node<K, T>)
    requires w.slots > 0
    ensures x in Members(w.live) <==> exists k :: k < w.slots && OnChain(LinkChains(w), k, x)
  {
    if x in Members(w.live) {
      var y := LiveItem(w.live, x);
      SlotMember(w.live, w.slots, y.due % w.slots, y);
      ItemOf(InSlot(w.live, w.slots, y.due % w.slots), y);
      assert OnChain(LinkChains(w), y.due % w.slots, x);
    }
    if k :| k < w.slots && OnChain(LinkChains(w), k, x) {
      var y := LiveItem(InSlot(w.live, w.slots, k), x);
      SlotMember(w.live, w.slots, k, y);
      ItemOf(w.live, y);
    }
  }

  /** And so do the bucket lists. */
  lemma BucketsCover<K, T>(w: Wheel<Node<K, T>>, n: nat, x: Node<K, T>)
    requires n > 0
    ensures x in Members(w.live) <==> exists b :: OnChain(BucketChains(w, n), b, x)
  {
    if x in Members(w.live) {
      var y := LiveItem(w.live, x);
      BucketMember(w.live, n, x.Hash() % n, y);
      ItemOf(InBucket(w.live, n, x.Hash() % n), y);
      assert OnChain(BucketChains(w, n), x.Hash() % n, x);
    }
    if b :| OnChain(BucketChains(w, n), b, x) {
      var y := LiveItem(InBucket(w.live, n, b), x);
      BucketMember(w.live, n, b, y);
      ItemOf(w.live, y);
    }
  }

  lemma SameChain<K, T>(roots: seq<Node<K, T>>, cs: seq<seq<Node<K, T>>>, u: set<Node<K, T>>, k: int, l: int,
                        x: Node<K, T>)
    requires Separate(roots, cs, u) && OnChain(cs, k, x) && OnChain(cs, l, x)
    ensures k == l
  {
    assert k < l ==> Disjoint(cs[k], cs[l]);
    assert l < k ==> Disjoint(cs[l], cs[k]);
  }

  lemma PutLinkChains<K, T>(w: Wheel<Node<K, T>>, t: nat, x: Node<K, T>)
    requires t < w.slots
    ensures var k, cs := (w.tick + t) % w.slots, LinkChains(w);
            LinkChains(Put(w, t, x)) == cs[k := [x] + cs[k]]
  {
    var y := Timed(x, w.tick + t, w.puts);
    forall k | 0 <= k < w.slots
      ensures SlotChains(Put(w, t, x))[k] == if k == y.due % w.slots then [x] + SlotChains(w)[k] else SlotChains(w)[k]
    {
      SlotCons(y, w.live, w.slots, k);
    }
  }

  lemma PutBucketChains<K, T>(w: Wheel<Node<K, T>>, t: nat, x: Node<K, T>, n: nat)
    requires t < w.slots && n > 0
    ensures var b, bs := x.Hash() % n, BucketChains(w, n);
            BucketChains(Put(w, t, x), n) == bs[b := [x] + bs[b]]
  {
    var y := Timed(x, w.tick + t, w.puts);
    forall b | 0 <= b < n
      ensures BucketChains(Put(w, t, x), n)[b]
           == if b == x.Hash() % n then [x] + BucketChains(w, n)[b] else BucketChains(w, n)[b]
    {
      BucketCons(y, w.live, n, b);
    }
  }

  lemma PutMembers<T>(w: Wheel<T>, t: nat, x: T)
    requires t < w.slots && NoDup(Items(w.live)) && x !in Members(w.live)
    ensures Members(Put(w, t, x).live) == Members(w.live) + {x}
    ensures NoDup(Items(Put(w, t, x).live))
  {
    ItemsCons(Timed(x, w.tick + t, w.puts), w.live);
  }

  lemma ItemsWithout<T>(s: seq<Timed<T>>, i: nat)
    requires i < |s|
    ensures Items(Without(s, i)) == Without(Items(s), i)
  {
  }

  /** Expiring the newest item of slot `k` moves its node between three chains. */
  lemma ExpireLinkChains<K, T>(w: Wheel<Node<K, T>>, k: nat)
    requires k < w.slots && InSlot(w.live, w.slots, k) != []
    ensures var i, cs := FirstInSlot(w.live, w.slots, k), LinkChains(w);
            && cs[k] != [] && cs[k][0] == w.live[i].item
            && LinkChains(ExpireAt(w, i)) == cs[k := cs[k][1..]][w.slots := [cs[k][0]] + cs[w.slots]]
  {
    var i := FirstInSlot(w.live, w.slots, k);
    var w', cs := ExpireAt(w, i), LinkChains(w);
    hide FirstInSlot;
    forall l | 0 <= l < w.slots
      ensures LinkChains(w')[l] == if l == k then cs[l][1..] else cs[l]
    {
      InSlotWithout(w.live, i, w.slots, l);
      if l == k {
        assert InSlot(w.live, w.slots, k) == [w.live[i]] + InSlot(w'.live, w.slots, k);
      }
    }
    ItemsCons(w.live[i], w.expired);
  }

  lemma ExpireBucketChains<K, T>(w: Wheel<Node<K, T>>, i: nat, n: nat)
    requires n > 0 && i < |w.live|
    ensures var b, bs := w.live[i].item.Hash() % n, BucketChains(w, n);
            var p := |InBucket(w.live[..i], n, b)|;
            && p < |bs[b]| && bs[b][p] == w.live[i].item
            && BucketChains(ExpireAt(w, i), n) == bs[b := Without(bs[b], p)]
  {
    var b, bs, w' := w.live[i].item.Hash() % n, BucketChains(w, n), ExpireAt(w, i);
    var p := |InBucket(w.live[..i], n, b)|;
    forall l | 0 <= l < n
      ensures p < |bs[b]| && bs[b][p] == w.live[i].item
      ensures BucketChains(w', n)[l] == if l == b then Without(bs[b], p) else bs[l]
    {
      BucketWithout(w.live, i, n, b);
      BucketWithout(w.live, i, n, l);
      ItemsWithout(InBucket(w.live, n, b), p);
    }
  }

  lemma SlotHead<K, T>(w: Wheel<Node<K, T>>, k: nat)
    requires k < w.slots
    ensures At(LinkChains(w)[k], 0) == null <==> InSlot(w.live, w.slots, k) == []
  {
  }

  lemma ChainsIgnoreTick<K, T>(w: Wheel<Node<K, T>>, t: nat, n: nat)
    requires w.slots > 0 && n > 0
    ensures LinkChains(w.(tick := t)) == LinkChains(w)
    ensures BucketChains(w.(tick := t), n) == BucketChains(w, n)
  {
  }

  lemma PopChains<K, T>(w: Wheel<Node<K, T>>)
    requires w.slots > 0 && NoDup(Items(w.expired))
    ensures var cs := LinkChains(w);
            w.expired != [] ==>
              && LinkChains(Pop(w)) == cs[w.slots := cs[w.slots][1..]]
              && Members(Pop(w).expired) == Members(w.expired) - {w.expired[0].item}
    ensures NoDup(Items(Pop(w).expired))
  {
    if w.expired != [] {
      var s := Items(w.expired);
      assert Items(w.expired[1..]) == s[1..];
      assert s == [s[0]] + s[1..];
      assert SlotChains(Pop(w)) == SlotChains(w);
    }
  }

  lemma ExpireMembers<T>(w: Wheel<T>, i: nat)
    requires i < |w.live| && NoDup(Items(w.live)) && NoDup(Items(w.expired))
    requires Members(w.live) !! Members(w.expired)
    ensures var x, w' := w.live[i].item, ExpireAt(w, i);
            && Members(w'.live) == Members(w.live) - {x}
            && Members(w'.expired) == Members(w.expired) + {x}
            && NoDup(Items(w'.live)) && NoDup(Items(w'.expired))
  {
    ItemsWithout(w.live, i);
    ItemsCons(w.live[i], w.expired);
    assert Items(w.live)[i] in Members(w.live);
    var s, d := Items(w.live), Without(Items(w.live), i);
    forall x
      ensures x in d <==> x in s && x != s[i]
    {
      if x in s && x != s[i] {
        var j :| 0 <= j < |s| && s[j] == x;
        assert d[if j < i then j else j - 1] == x;
      }
    }
  }

  lemma EmptyChains<K, T>(slots: nat, ts: seq<Node<K, T>>, bs: seq<Node<K, T>>)
    requires slots > 0 && |ts| == slots + 1 && |bs| > 0 && NoDup(ts) && NoDup(bs)
    requires (forall r | r in ts :: r.link == null) && (forall r | r in bs :: r.next == null)
    ensures var w: Wheel<Node<K, T>> := New(slots);
            && LinksOk(ts, LinkChains(w), {}) && ThreadsOk(bs, BucketChains(w, |bs|), {})
            && Inv(w) && NoDup(Items(w.live)) && NoDup(Items(w.expired))
            && Members(w.live) == Members(w.expired) == {}
  {
    var w: Wheel<Node<K, T>> := New(slots);
    assert forall c | c in LinkChains(w) + BucketChains(w, |bs|) :: c == [];
  }

  method NewRoots<K(==), T>(n: nat) returns (r: seq<Node<K, T>>)
    ensures |r| == n && NoDup(r)
    ensures forall x | x in r :: fresh(x) && x.entry.Root? && x.next == null && x.link == null
  {
    r := [];
    while |r| < n
      invariant |r| <= n && NoDup(r)
      invariant forall x | x in r :: fresh(x) && x.entry.Root? && x.next == null && x.link == null
    {
      var x := new Node(Root);
      r := r + [x];
    }
  }

  class LRUHash<K(==), T> {
    const timeslot: seq<Node<K, T>>
    const bucket: seq<Node<K, T>>
    const exp: Node<K, T>
    var currTick: nat
    ghost var w: Wheel<Node<K, T>>

    ghost var nodes: set<Node<K, T>>    // put and not yet popped
    ghost const heads: set<Node<K, T>>  // the list heads

    ghost function Footprint(): set<object>
      reads this
    {
      {this} + heads + nodes
    }

    ghost predicate HeadsOk() {
      && |timeslot| > 0 && |bucket| > 0
      && (forall r | r in timeslot + [exp] :: r in heads)
      && (forall r | r in bucket :: r in heads)
      && (forall r | r in heads :: r.entry.Root?)
    }

    /** Every node not yet popped is on exactly one `link` chain, every chain is acyclic, `prev`
        inverts `next`, and the buckets hold exactly the nodes that the slots hold. */
    ghost predicate Valid()
      reads this, Footprint()
    {
      && HeadsOk()
      && w.slots == |timeslot| && w.tick == currTick && Inv(w)
      && nodes == Members(w.live) + Members(w.expired)
      && (forall x | x in nodes :: x.entry.Entry?)
      && NoDup(Items(w.live)) && NoDup(Items(w.expired)) && Members(w.live) !! Members(w.expired)
      && LinksOk(timeslot + [exp], LinkChains(w), nodes)
      && ThreadsOk(bucket, BucketChains(w, |bucket|), Members(w.live))
    }

    /** What a client may rely on without looking at the pointers. */
    lemma Contents()
      requires Valid()
      ensures heads !! nodes
      ensures nodes == Members(w.live) + Members(w.expired) && Members(w.live) !! Members(w.expired)
      ensures NoDup(Items(w.live)) && NoDup(Items(w.expired)) && Inv(w)
      ensures w.slots == |timeslot| > 0 && w.tick == currTick
    {
    }

    /** The two indexes agree: the buckets hold exactly the nodes that the slots hold. */
    lemma IndexesAgree(x: Node<K, T>)
      requires Valid()
      ensures (exists k :: k < w.slots && OnChain(LinkChains(w), k, x))
          <==> exists b :: OnChain(BucketChains(w, |bucket|), b, x)
    {
      SlotsCover(w, x);
      BucketsCover(w, |bucket|, x);
    }

    /** The nodes put and not yet popped are those on a `link` chain, each on exactly one: that of a slot
        or the expired chain.  No node is in two buckets. */
    lemma OnExactlyOneChain(x: Node<K, T>)
      requires Valid()
      ensures x in nodes <==> exists k :: OnChain(LinkChains(w), k, x)
      ensures forall k, l | OnChain(LinkChains(w), k, x) && OnChain(LinkChains(w), l, x) :: k == l
      ensures var bs := BucketChains(w, |bucket|);
              forall b, c | OnChain(bs, b, x) && OnChain(bs, c, x) :: b == c
    {
      SlotsCover(w, x);
      assert OnChain(LinkChains(w), w.slots, x) <==> x in Members(w.expired);
      forall k, l | OnChain(LinkChains(w), k, x) && OnChain(LinkChains(w), l, x)
        ensures k == l
      {
        SameChain(timeslot + [exp], LinkChains(w), nodes, k, l, x);
      }
      forall b, c | OnChain(BucketChains(w, |bucket|), b, x) && OnChain(BucketChains(w, |bucket|), c, x)
        ensures b == c
      {
        SameChain(bucket, BucketChains(w, |bucket|), Members(w.live), b, c, x);
      }
    }

    lemma Ready(ts: seq<Node<K, T>>, bs: seq<Node<K, T>>)
      requires |timeslot| > 0 && |bs| > 0 && timeslot + [exp] == ts && bucket == bs
      requires heads == (set r | r in ts + bs) && nodes == {} && w == New(|timeslot|) && currTick == 0
      requires (forall r | r in ts + bs :: r.entry.Root?)
      requires LinksOk(ts, LinkChains(w), {}) && ThreadsOk(bs, BucketChains(w, |bs|), {})
      requires Inv(w) && NoDup(Items(w.live)) && NoDup(Items(w.expired))
      requires Members(w.live) == Members(w.expired) == {}
      ensures Valid()
    {
      hide LinksOk, ThreadsOk, LinkChains, BucketChains, NoDup, Inv, Members, Items;
    }

    constructor (slots: nat, buckets: nat := DEFAULT_BUCKET_SIZE)
      requires slots > 0
      ensures Valid() && fresh(Footprint())
      ensures w == New(slots)
      ensures |bucket| == if buckets == 0 then 1031 else buckets
    {
      var ts := NewRoots<K, T>(slots + 1);
      var bs := NewRoots<K, T>(if buckets == 0 then DEFAULT_BUCKET_SIZE else buckets);
      timeslot, bucket := ts[..slots], bs;
      exp := ts[slots];
      currTick := 0;
      w := New(slots);
      nodes, heads := {}, set r | r in ts + bs;
      new;
      assert |bs| == if buckets == 0 then 1031 else buckets;
      assert fresh(Footprint()) && timeslot + [exp] == ts;
      hide *;
      EmptyChains(slots, ts, bs);
      Ready(ts, bs);
    }

    /** The newest live node with this hash and key, whatever the number of buckets. */
    method Get(hv: nat, key: K) returns (r: Node?<K, T>)
      requires Valid()
      ensures r == At(Items(w.live), FirstMatch(Items(w.live), hv, key))
      ensures r != null ==> r in nodes
    {
      var ptr := hv % |bucket|;
      r := bucket[ptr].Search(hv, key, BucketChains(w, |bucket|)[ptr]);
      MatchInBucket(w.live, |bucket|, hv, key);
    }

    method Put(tick: nat, node: Node<K, T>) returns (ok: bool)
      requires Valid()
      requires node !in Footprint() && node.entry.Entry?
      modifies Footprint(), node
      ensures Valid()
      ensures ok <==> tick < old(w.slots)
      ensures w == TimingWheel.Put(old(w), tick, node)
      ensures nodes == if ok then old(nodes) + {node} else old(nodes)
    {
      hide LinksOk, ThreadsOk, Separate, Linked, Threaded, NoDup, LinkChains, BucketChains, Inv, Items, Members;
      if tick >= |timeslot| {
        return false;
      }
      PutLinkChains(w, tick, node);
      PutBucketChains(w, tick, node, |bucket|);
      PutMembers(w, tick, node);
      var ptr := node.Hash() % |bucket|;
      AttachTo(bucket[ptr], node, bucket, ptr, BucketChains(w, |bucket|), Members(w.live));
      var tp := (tick + currTick) % |timeslot|;
      PushOn(timeslot[tp], node, timeslot + [exp], tp, LinkChains(w), nodes);
      w := TimingWheel.Put(w, tick, node);
      PutKeepsInv(old(w), tick, node);
      nodes := nodes + {node};
      return true;
    }

    /** One round of the expiry loop: takes the newest node of slot `tp`, if any, out of its
        slot and its bucket and pushes it on the expired chain. */
    method ExpireNewest(tp: nat) returns (more: bool)
      requires Valid() && tp < |timeslot|
      modifies Footprint()
      ensures Valid() && Footprint() == old(Footprint()) && nodes == old(nodes)
      ensures currTick == old(currTick)
      ensures more <==> InSlot(old(w.live), old(w.slots), tp) != []
      ensures w == if more then ExpireAt(old(w), FirstInSlot(old(w.live), old(w.slots), tp)) else old(w)
    {
      hide LinksOk, ThreadsOk, Separate, Linked, Threaded, NoDup, LinkChains, BucketChains, Inv, Items, Members,
           InSlot, InBucket;
      assert exp in timeslot + [exp];
      ghost var cs, bs, u := LinkChains(w), BucketChains(w, |bucket|), nodes;
      var node := PopFrom(timeslot[tp], timeslot + [exp], tp, cs, u);
      SlotHead(w, tp);
      if node == null {
        return false;
      }
      ghost var i := FirstInSlot(w.live, w.slots, tp);
      ghost var b := node.Hash() % |bucket|;
      ExpireLinkChains(w, tp);
      ExpireBucketChains(w, i, |bucket|);
      ExpireMembers(w, i);
      ExpireAtKeepsInv(w, i);
      DetachFrom(node, bucket, b, |InBucket(w.live[..i], |bucket|, b)|, bs, Members(w.live));
      PushOn(exp, node, timeslot + [exp], |timeslot|, cs[tp := cs[tp][1..]], u - {node});
      assert u - {node} + {node} == u;
      w := ExpireAt(w, i);
      return true;
    }

    /** Expires slot `tp` node by node. */
    method DrainSlot(tp: nat)
      requires Valid() && tp < |timeslot|
      modifies Footprint()
      ensures Valid() && Footprint() == old(Footprint()) && nodes == old(nodes)
      ensures w == ExpireSlot(old(w), tp) && currTick == old(currTick)
    {
      hide Valid, Footprint, HeadsOk, Inv, LinkChains, BucketChains;
      Contents();
      var more := true;
      while more
        invariant Valid() && Footprint() == old(Footprint()) && nodes == old(nodes)
        invariant w.slots == old(w.slots) == |timeslot| && currTick == old(currTick)
        invariant ExpireSlot(w, tp) == ExpireSlot(old(w), tp)
        invariant !more ==> InSlot(w.live, w.slots, tp) == []
        decreases |InSlot(w.live, w.slots, tp)|, more
      {
        ghost var before := w;
        more := ExpireNewest(tp);
        if more {
          ExpireNewestFirst(before, tp);
        }
      }
      EmptySlot(w.live, w.slots, tp);
    }

    /** The loop of `prog`: drains the slots of the next `tick` ticks, one after the other. */
    method DrainSlots(tick: nat)
      requires Valid()
      modifies Footprint()
      ensures Valid() && Footprint() == old(Footprint()) && nodes == old(nodes)
      ensures w == Sweep(old(w), old(w.tick), tick) && currTick == old(currTick)
    {
      hide *;
      Contents();
      ghost var start := w;
      SweepNext(start, start.tick, 0);
      for i := 0 to tick
        invariant Valid() && Footprint() == old(Footprint()) && nodes == old(nodes)
        invariant w == Sweep(start, start.tick, i) && currTick == start.tick
      {
        var tp := (currTick + i) % |timeslot|;
        SweepNext(start, start.tick, i);
        DrainSlot(tp);
      }
    }

    method Prog(tick: nat := 1)
      requires Valid()
      modifies Footprint()
      ensures Valid() && Footprint() == old(Footprint()) && nodes == old(nodes)
      ensures w == TimingWheel.Prog(old(w), tick)
    {
      hide LinksOk, ThreadsOk, Separate, Linked, Threaded, NoDup, LinkChains, BucketChains, Inv;
      DrainSlots(tick);
      ProgKeepsInv(old(w), tick);
      ChainsIgnoreTick(w, w.tick + tick, |bucket|);
      currTick := currTick + tick;
      w := w.(tick := w.tick + tick);
    }

    method Purge()
      requires Valid()
      modifies Footprint()
      ensures Valid() && Footprint() == old(Footprint()) && nodes == old(nodes)
      ensures w == TimingWheel.Purge(old(w))
    {
      hide Valid, Footprint, HeadsOk, Inv, LinkChains, BucketChains, Sweep, ExpireSlot;
      Contents();
      SweepNext(w, 0, 0);
      for i := 0 to |timeslot|
        invariant Valid() && Footprint() == old(Footprint()) && nodes == old(nodes)
        invariant w == Sweep(old(w), 0, i)
      {
        DivModUnique(i, |timeslot|, 0, i);
        SweepNext(old(w), 0, i);
        DrainSlot(i);
      }
    }

    method Pop() returns (node: Node?<K, T>)
      requires Valid()
      modifies Footprint()
      ensures Valid()
      ensures node == At(Items(old(w.expired)), 0)
      ensures w == TimingWheel.Pop(old(w))
      ensures node == null ==> nodes == old(nodes)
      ensures node != null ==> node in old(nodes) && nodes == old(nodes) - {node}
      ensures node != null ==> node in old(Footprint()) && node !in Footprint()
      ensures Footprint() <= old(Footprint())
    {
      hide LinksOk, ThreadsOk;
      node := PopFrom(exp, timeslot + [exp], |timeslot|, LinkChains(w), nodes);
      w := TimingWheel.Pop(w);
      PopChains(old(w));
      if node != null {
        nodes := nodes - {node};
      }
    }
  }
}
