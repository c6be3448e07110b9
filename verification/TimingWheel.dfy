/** The abstract state of an LRUHash: what is live, what has expired, and when.

    A wheel of `slots` time slots holds its live items newest first, each with the absolute
    tick `due` up to which it must stay findable and a serial number (how many items had been
    put before it).  Expired items wait on a stack until they are popped.

    The operations are stated the way the wheel works, slot by slot and modulo `slots`; the
    lemmas below show what that means on an absolute time line. */
module TimingWheel {

  datatype Timed<+T> = Timed(item: T, due: nat, serial: nat)

  datatype Wheel<+T> = Wheel(slots: nat, tick: nat, puts: nat,
                             live: seq<Timed<T>>, expired: seq<Timed<T>>)

  // ---------------------------------------------------------------- sequences

  function Reversed<T>(s: seq<T>): (r: seq<T>)
    ensures |r| == |s|
  {
    if s == [] then [] else Reversed(s[1..]) + [s[0]]
  }

  function Without<T>(s: seq<T>, i: nat): (r: seq<T>)
    requires i < |s|
    ensures |r| == |s| - 1
  {
    s[..i] + s[i + 1..]
  }

  /** The items of slot `k` of an `n`-slot wheel, in their given order. */
  function InSlot<T>(s: seq<Timed<T>>, n: nat, k: nat): seq<Timed<T>>
    requires n > 0
  {
    if s == [] then []
    else if s[0].due % n == k then [s[0]] + InSlot(s[1..], n, k)
    else InSlot(s[1..], n, k)
  }

  function OutOfSlot<T>(s: seq<Timed<T>>, n: nat, k: nat): seq<Timed<T>>
    requires n > 0
  {
    if s == [] then []
    else if s[0].due % n == k then OutOfSlot(s[1..], n, k)
    else [s[0]] + OutOfSlot(s[1..], n, k)
  }

  /** The items due at tick `d` exactly. */
  function DueAt<T>(s: seq<Timed<T>>, d: nat): seq<Timed<T>> {
    if s == [] then []
    else if s[0].due == d then [s[0]] + DueAt(s[1..], d)
    else DueAt(s[1..], d)
  }

  /** The items due at tick `d` or later. */
  function DueFrom<T>(s: seq<Timed<T>>, d: nat): seq<Timed<T>> {
    if s == [] then []
    else if s[0].due >= d then [s[0]] + DueFrom(s[1..], d)
    else DueFrom(s[1..], d)
  }

  // --------------------------------------------------------------- operations

  function New<T>(slots: nat): Wheel<T> {
    Wheel(slots, 0, 0, [], [])
  }

  function Put<T>(w: Wheel<T>, t: nat, x: T): (r: Wheel<T>)
    ensures r.slots == w.slots
  {
    if t < w.slots
    then w.(puts := w.puts + 1, live := [Timed(x, w.tick + t, w.puts)] + w.live)
    else w
  }

  /** Empties slot `k` onto the expired stack. */
  function ExpireSlot<T>(w: Wheel<T>, k: nat): Wheel<T>
    requires w.slots > 0
  {
    w.(live := OutOfSlot(w.live, w.slots, k),
       expired := Reversed(InSlot(w.live, w.slots, k)) + w.expired)
  }

  /** Empties `count` consecutive slots, starting with that of tick `from`. */
  function Sweep<T>(w: Wheel<T>, from: nat, count: nat): (r: Wheel<T>)
    requires w.slots > 0
    ensures r.slots == w.slots && r.tick == w.tick && r.puts == w.puts
    decreases count
  {
    if count == 0 then w
    else ExpireSlot(Sweep(w, from, count - 1), (from + count - 1) % w.slots)
  }

  lemma SweepNext<T>(w: Wheel<T>, from: nat, k: nat)
    requires w.slots > 0
    ensures Sweep(w, from, 0) == w
    ensures Sweep(w, from, k + 1) == ExpireSlot(Sweep(w, from, k), (from + k) % w.slots)
  {
  }

  function Prog<T>(w: Wheel<T>, k: nat): (r: Wheel<T>)
    requires w.slots > 0
    ensures r.slots == w.slots
  {
    Sweep(w, w.tick, k).(tick := w.tick + k)
  }

  function Purge<T>(w: Wheel<T>): (r: Wheel<T>)
    requires w.slots > 0
    ensures r.slots == w.slots
  {
    Sweep(w, 0, w.slots)
  }

  function Pop<T>(w: Wheel<T>): Wheel<T> {
    if w.expired == [] then w else w.(expired := w.expired[1..])
  }

  /** Moves the live item at index `i` to the top of the expired stack. */
  function ExpireAt<T>(w: Wheel<T>, i: nat): Wheel<T>
    requires i < |w.live|
  {
    w.(live := Without(w.live, i), expired := [w.live[i]] + w.expired)
  }

  /** Replaces the item at live index `i`, keeping its deadline. */
  function Update<T>(w: Wheel<T>, i: nat, x: T): Wheel<T>
    requires i < |w.live|
  {
    w.(live := w.live[i := w.live[i].(item := x)])
  }

  // --------------------------------------------------------------- invariants

  ghost predicate Window<T>(w: Wheel<T>) {
    && w.slots > 0
    && forall i | 0 <= i < |w.live| :: w.tick <= w.live[i].due < w.tick + w.slots
  }

  /** Newest first: serial numbers strictly decrease and are below `bound`. */
  ghost predicate Newest<T>(s: seq<Timed<T>>, bound: nat) {
    && (forall i | 0 <= i < |s| :: s[i].serial < bound)
    && (forall i, j | 0 <= i < j < |s| :: s[i].serial > s[j].serial)
  }

  ghost predicate Inv<T>(w: Wheel<T>) {
    Window(w) && Newest(w.live, w.puts)
  }

  /** `a` lies above `b` on the expired stack: later deadline, or same deadline and put earlier. */
  ghost predicate Above<T>(a: Timed<T>, b: Timed<T>) {
    a.due > b.due || (a.due == b.due && a.serial < b.serial)
  }

  ghost predicate Ordered<T>(s: seq<Timed<T>>) {
    forall i, j | 0 <= i < j < |s| :: Above(s[i], s[j])
  }

  /** The expired stack is ordered and holds nothing whose time has not passed. */
  ghost predicate ExpiredInOrder<T>(w: Wheel<T>) {
    Ordered(w.expired) && forall i | 0 <= i < |w.expired| :: w.expired[i].due < w.tick
  }

  // --------------------------------------------------- modular slots are exact

  lemma MulStep(n: nat, a: int, b: int)
    requires a < b
    ensures n * a + n <= n * b
  {
    var e := b - a - 1;
    assert n * e >= 0;
    assert b == a + 1 + e;
    assert n * (a + 1 + e) == n * a + n + n * e;
  }

  lemma DivModUnique(x: int, n: int, q: int, r: int)
    requires n > 0 && 0 <= r < n && x == n * q + r
    ensures x % n == r
  {
    if x / n < q {
      MulStep(n, x / n, q);
    } else if q < x / n {
      MulStep(n, q, x / n);
    }
  }

  /** Within one turn of the wheel a slot stands for exactly one tick. */
  lemma SlotIsOneTick(a: nat, d: nat, n: nat)
    requires n > 0 && a <= d < a + n
    ensures d % n == a % n <==> d == a
  {
    var q, r, e := a / n, a % n, d - a;
    assert a == n * q + r;
    if r + e < n {
      DivModUnique(d, n, q, r + e);
    } else {
      assert d == n * (q + 1) + (r + e - n);
      DivModUnique(d, n, q + 1, r + e - n);
    }
  }

  lemma {:induction false} SlotIsDueAt<T>(s: seq<Timed<T>>, n: nat, a: nat)
    requires n > 0
    requires forall i | 0 <= i < |s| :: s[i].due < a + n
    ensures InSlot(DueFrom(s, a), n, a % n) == DueAt(s, a)
    ensures OutOfSlot(DueFrom(s, a), n, a % n) == DueFrom(s, a + 1)
  {
    if s == [] {
    } else {
      SlotIsDueAt(s[1..], n, a);
      if s[0].due >= a {
        SlotIsOneTick(a, s[0].due, n);
        assert DueFrom(s, a)[1..] == DueFrom(s[1..], a);
      }
    }
  }

  lemma {:induction false} DueFromAll<T>(s: seq<Timed<T>>, d: nat)
    requires forall i | 0 <= i < |s| :: s[i].due >= d
    ensures DueFrom(s, d) == s
  {
    if s == [] {
    } else {
      DueFromAll(s[1..], d);
    }
  }

  lemma {:induction false} DueFromNone<T>(s: seq<Timed<T>>, d: nat)
    requires forall i | 0 <= i < |s| :: s[i].due < d
    ensures DueFrom(s, d) == [] && DueAt(s, d) == []
  {
    if s == [] {
    } else {
      DueFromNone(s[1..], d);
    }
  }

  lemma {:induction false} DueFromMember<T>(s: seq<Timed<T>>, d: nat, x: Timed<T>)
    ensures x in DueFrom(s, d) <==> x in s && x.due >= d
    ensures x in DueAt(s, d) <==> x in s && x.due == d
  {
    if s == [] {
    } else {
      DueFromMember(s[1..], d, x);
      assert s == [s[0]] + s[1..];
    }
  }

  /** What `k` more ticks push onto the stack: the latest deadline on top, each in put order. */
  function Batches<T>(s: seq<Timed<T>>, from: nat, k: nat): seq<Timed<T>> {
    if k == 0 then [] else Reversed(DueAt(s, from + k - 1)) + Batches(s, from, k - 1)
  }

  /** Exact expiry: `prog(k)` keeps live exactly what is due at the new tick or later, in order,
      and stacks up the rest batch by batch, also when k turns the wheel several times. */
  lemma {:induction false} ProgExact<T>(w: Wheel<T>, k: nat)
    requires Window(w)
    ensures Prog(w, k).live == DueFrom(w.live, w.tick + k)
    ensures Prog(w, k).expired == Batches(w.live, w.tick, k) + w.expired
    decreases k
  {
    if k == 0 {
      DueFromAll(w.live, w.tick);
    } else {
      ProgExact(w, k - 1);
      var a := w.tick + k - 1;
      SlotIsDueAt(w.live, w.slots, a);
    }
  }

  lemma {:induction false} SubsequenceInv<T>(s: seq<Timed<T>>, d: nat, bound: nat)
    requires Newest(s, bound)
    ensures Newest(DueFrom(s, d), bound) && Newest(DueAt(s, d), bound)
  {
    if s == [] {
    } else {
      SubsequenceInv(s[1..], d, s[0].serial);
    }
  }

  lemma ProgKeepsInv<T>(w: Wheel<T>, k: nat)
    requires Inv(w)
    ensures Inv(Prog(w, k))
  {
    ProgExact(w, k);
    SubsequenceInv(w.live, w.tick + k, w.puts);
    var live := Prog(w, k).live;
    forall i | 0 <= i < |live|
      ensures w.tick + k <= live[i].due < w.tick + k + w.slots
    {
      DueFromMember(w.live, w.tick + k, live[i]);
    }
  }

  lemma PutKeepsInv<T>(w: Wheel<T>, t: nat, x: T)
    requires Inv(w)
    ensures Inv(Put(w, t, x))
  {
  }

  // ------------------------------------------------------------- composition

  lemma {:induction false} SweepAdd<T>(w: Wheel<T>, from: nat, a: nat, b: nat)
    requires w.slots > 0
    ensures Sweep(Sweep(w, from, a), from + a, b) == Sweep(w, from, a + b)
    decreases b
  {
    if b == 0 {
    } else {
      SweepAdd(w, from, a, b - 1);
      assert from + (a + b) - 1 == (from + a) + b - 1;
    }
  }

  lemma {:induction false} SweepKeepsTick<T>(w: Wheel<T>, t: nat, from: nat, k: nat)
    requires w.slots > 0
    ensures Sweep(w.(tick := t), from, k) == Sweep(w, from, k).(tick := t)
    decreases k
  {
    if k == 0 {
    } else {
      SweepKeepsTick(w, t, from, k - 1);
    }
  }

  /** Two advances in a row are one: same slots, same expired order, same tick. */
  lemma ProgAdd<T>(w: Wheel<T>, a: nat, b: nat)
    requires w.slots > 0
    ensures Prog(Prog(w, a), b) == Prog(w, a + b)
  {
    SweepKeepsTick(Sweep(w, w.tick, a), w.tick + a, w.tick + a, b);
    SweepAdd(w, w.tick, a, b);
  }

  // ------------------------------------------------------------ expired order

  lemma {:induction false} ReversedAt<T>(s: seq<T>, i: nat)
    requires i < |s|
    ensures Reversed(s)[i] == s[|s| - 1 - i]
  {
    if i < |s| - 1 {
      ReversedAt(s[1..], i);
    }
  }

  lemma BatchInPutOrder<T>(s: seq<Timed<T>>, bound: nat, d: nat)
    requires Newest(s, bound)
    ensures var r := Reversed(DueAt(s, d));
            && (forall x | x in r :: x.due == d)
            && forall i, j | 0 <= i < j < |r| :: r[i].serial < r[j].serial
  {
    var c := DueAt(s, d);
    SubsequenceInv(s, d, bound);
    forall i | 0 <= i < |c|
      ensures Reversed(c)[i] == c[|c| - 1 - i] && Reversed(c)[i].due == d
    {
      ReversedAt(c, i);
      DueFromMember(s, d, c[|c| - 1 - i]);
    }
  }

  /** A batch of one tick, in put order, on a stack of earlier ones. */
  lemma OrderedOnTop<T>(a: seq<Timed<T>>, b: seq<Timed<T>>, d: nat)
    requires forall x | x in a :: x.due == d
    requires forall i, j | 0 <= i < j < |a| :: a[i].serial < a[j].serial
    requires Ordered(b) && forall x | x in b :: x.due < d
    ensures Ordered(a + b)
  {
    forall i, j | 0 <= i < j < |a + b|
      ensures Above((a + b)[i], (a + b)[j])
    {
      if i < |a| {
        assert a[i] in a && (j < |a| ==> a[j] in a) && (j >= |a| ==> b[j - |a|] in b);
      } else {
        assert Above(b[i - |a|], b[j - |a|]);
      }
    }
  }

  lemma {:induction false} BatchesOrdered<T>(s: seq<Timed<T>>, bound: nat, from: nat, k: nat)
    requires Newest(s, bound)
    ensures Ordered(Batches(s, from, k))
    ensures forall x | x in Batches(s, from, k) :: from <= x.due < from + k
    decreases k
  {
    if k == 0 {
    } else {
      BatchesOrdered(s, bound, from, k - 1);
      BatchInPutOrder(s, bound, from + k - 1);
      OrderedOnTop(Reversed(DueAt(s, from + k - 1)), Batches(s, from, k - 1), from + k - 1);
    }
  }

  /** Without `purge`, the expired stack stays sorted by deadline, equal deadlines in put order. */
  lemma ProgKeepsOrder<T>(w: Wheel<T>, k: nat)
    requires Inv(w) && ExpiredInOrder(w)
    ensures ExpiredInOrder(Prog(w, k))
  {
    ProgExact(w, k);
    BatchesOrdered(w.live, w.puts, w.tick, k);
    var b := Batches(w.live, w.tick, k);
    forall i | 0 <= i < |b|
      ensures w.tick <= b[i].due < w.tick + k
    {
      assert b[i] in b;
    }
  }

  // -------------------------------------------------- one item at a time

  lemma {:induction false} InSlotConcat<T>(a: seq<Timed<T>>, b: seq<Timed<T>>, n: nat, k: nat)
    requires n > 0
    ensures InSlot(a + b, n, k) == InSlot(a, n, k) + InSlot(b, n, k)
  {
    if a == [] {
      assert a + b == b;
    } else {
      InSlotConcat(a[1..], b, n, k);
      assert (a + b)[0] == a[0] && (a + b)[1..] == a[1..] + b;
      assert [a[0]] + InSlot(a[1..], n, k) + InSlot(b, n, k) == [a[0]] + (InSlot(a[1..], n, k) + InSlot(b, n, k));
    }
  }

  lemma {:induction false} OutOfSlotConcat<T>(a: seq<Timed<T>>, b: seq<Timed<T>>, n: nat, k: nat)
    requires n > 0
    ensures OutOfSlot(a + b, n, k) == OutOfSlot(a, n, k) + OutOfSlot(b, n, k)
  {
    if a == [] {
      assert a + b == b;
    } else {
      OutOfSlotConcat(a[1..], b, n, k);
      assert (a + b)[0] == a[0] && (a + b)[1..] == a[1..] + b;
      assert [a[0]] + OutOfSlot(a[1..], n, k) + OutOfSlot(b, n, k)
          == [a[0]] + (OutOfSlot(a[1..], n, k) + OutOfSlot(b, n, k));
    }
  }

  /** Taking one item out of the live list takes it out of its own slot only. */
  lemma InSlotWithout<T>(s: seq<Timed<T>>, i: nat, n: nat, k: nat)
    requires n > 0 && i < |s|
    ensures InSlot(s, n, k) == InSlot(s[..i], n, k) + InSlot([s[i]], n, k) + InSlot(s[i + 1..], n, k)
    ensures InSlot(Without(s, i), n, k) == InSlot(s[..i], n, k) + InSlot(s[i + 1..], n, k)
  {
    assert s == s[..i] + [s[i]] + s[i + 1..];
    InSlotConcat(s[..i] + [s[i]], s[i + 1..], n, k);
    InSlotConcat(s[..i], [s[i]], n, k);
    InSlotConcat(s[..i], s[i + 1..], n, k);
  }

  lemma OutOfSlotWithout<T>(s: seq<Timed<T>>, i: nat, n: nat, k: nat)
    requires n > 0 && i < |s|
    ensures OutOfSlot(s, n, k) == OutOfSlot(s[..i], n, k) + OutOfSlot([s[i]], n, k) + OutOfSlot(s[i + 1..], n, k)
    ensures OutOfSlot(Without(s, i), n, k) == OutOfSlot(s[..i], n, k) + OutOfSlot(s[i + 1..], n, k)
  {
    assert s == s[..i] + [s[i]] + s[i + 1..];
    OutOfSlotConcat(s[..i] + [s[i]], s[i + 1..], n, k);
    OutOfSlotConcat(s[..i], [s[i]], n, k);
    OutOfSlotConcat(s[..i], s[i + 1..], n, k);
  }

  /** The live index of the newest item of slot `k`. */
  function FirstInSlot<T>(s: seq<Timed<T>>, n: nat, k: nat): (i: nat)
    requires n > 0 && InSlot(s, n, k) != []
    ensures i < |s| && s[i].due % n == k && InSlot(s[..i], n, k) == []
    ensures InSlot(s, n, k)[0] == s[i]
  {
    if s[0].due % n == k then 0
    else
      var i := FirstInSlot(s[1..], n, k) + 1;
      assert s[..i][1..] == s[1..][..i - 1];
      i
  }

  lemma {:induction false} ReversedConcat<T>(a: seq<T>, b: seq<T>)
    ensures Reversed(a + b) == Reversed(b) + Reversed(a)
  {
    if a == [] {
      assert a + b == b;
    } else {
      ReversedConcat(a[1..], b);
      assert (a + b)[1..] == a[1..] + b;
    }
  }

  /** Popping a slot's items one by one, newest first, empties the slot as a whole. */
  lemma ExpireNewestFirst<T>(w: Wheel<T>, k: nat)
    requires w.slots > 0 && InSlot(w.live, w.slots, k) != []
    ensures ExpireSlot(ExpireAt(w, FirstInSlot(w.live, w.slots, k)), k) == ExpireSlot(w, k)
    ensures InSlot(ExpireAt(w, FirstInSlot(w.live, w.slots, k)).live, w.slots, k) == InSlot(w.live, w.slots, k)[1..]
  {
    var i := FirstInSlot(w.live, w.slots, k);
    var rest := InSlot(w.live[i + 1..], w.slots, k);
    InSlotWithout(w.live, i, w.slots, k);
    OutOfSlotWithout(w.live, i, w.slots, k);
    assert InSlot(w.live, w.slots, k) == [w.live[i]] + rest;
    ReversedConcat([w.live[i]], rest);
    assert Reversed([w.live[i]]) == [w.live[i]];
    assert Reversed(rest) + ([w.live[i]] + w.expired) == Reversed(rest) + [w.live[i]] + w.expired;
    var v := ExpireAt(w, i);
    assert InSlot(v.live, w.slots, k) == rest;
    assert OutOfSlot(v.live, w.slots, k) == OutOfSlot(w.live, w.slots, k);
  }

  lemma {:induction false} EmptySlot<T>(s: seq<Timed<T>>, n: nat, k: nat)
    requires n > 0 && InSlot(s, n, k) == []
    ensures OutOfSlot(s, n, k) == s
  {
    if s == [] {
    } else {
      EmptySlot(s[1..], n, k);
    }
  }

  lemma ExpireAtKeepsInv<T>(w: Wheel<T>, i: nat)
    requires Inv(w) && i < |w.live|
    ensures Inv(ExpireAt(w, i))
  {
  }

  // ------------------------------------------------------------ conservation

  function All<T>(w: Wheel<T>): seq<Timed<T>> {
    w.live + w.expired
  }

  lemma {:induction false} ReversedSame<T>(s: seq<T>)
    ensures multiset(Reversed(s)) == multiset(s)
  {
    if s == [] {
    } else {
      ReversedSame(s[1..]);
      assert s == [s[0]] + s[1..];
    }
  }

  lemma {:induction false} SlotSplit<T>(s: seq<Timed<T>>, n: nat, k: nat)
    requires n > 0
    ensures multiset(InSlot(s, n, k)) + multiset(OutOfSlot(s, n, k)) == multiset(s)
  {
    if s == [] {
    } else {
      SlotSplit(s[1..], n, k);
      assert s == [s[0]] + s[1..];
    }
  }

  lemma SlotConserves<T>(w: Wheel<T>, k: nat)
    requires w.slots > 0
    ensures var v := ExpireSlot(w, k);
            multiset(v.live) + multiset(v.expired) == multiset(w.live) + multiset(w.expired)
  {
    SlotSplit(w.live, w.slots, k);
    ReversedSame(InSlot(w.live, w.slots, k));
  }

  /** Sweeping slots moves items from live to expired and neither loses nor copies one. */
  lemma {:induction false} SweepConserves<T>(w: Wheel<T>, from: nat, k: nat)
    requires w.slots > 0
    ensures var v := Sweep(w, from, k);
            multiset(v.live) + multiset(v.expired) == multiset(w.live) + multiset(w.expired)
    decreases k
  {
    hide ExpireSlot;
    if k == 0 {
    } else {
      SweepConserves(w, from, k - 1);
      SlotConserves(Sweep(w, from, k - 1), (from + k - 1) % w.slots);
    }
  }

  lemma {:induction false} SlotMember<T>(s: seq<Timed<T>>, n: nat, k: nat, x: Timed<T>)
    requires n > 0
    ensures x in OutOfSlot(s, n, k) <==> x in s && x.due % n != k
    ensures x in InSlot(s, n, k) <==> x in s && x.due % n == k
  {
    if s == [] {
    } else {
      SlotMember(s[1..], n, k, x);
      assert s == [s[0]] + s[1..];
    }
  }

  lemma {:induction false} SweptSlots<T>(w: Wheel<T>, k: nat, x: Timed<T>)
    requires w.slots > 0 && k <= w.slots
    ensures x in Sweep(w, 0, k).live ==> k <= x.due % w.slots
    decreases k
  {
    if k == 0 {
    } else {
      SweptSlots(w, k - 1, x);
      DivModUnique(k - 1, w.slots, 0, k - 1);
      SlotMember(Sweep(w, 0, k - 1).live, w.slots, k - 1, x);
    }
  }

  /** `purge` leaves nothing live, and everything not yet popped waits on the expired stack. */
  lemma PurgeExpiresAll<T>(w: Wheel<T>)
    requires w.slots > 0
    ensures Purge(w).live == []
    ensures multiset(Purge(w).expired) == multiset(All(w))
  {
    var v := Purge(w);
    if v.live != [] {
      SweptSlots(w, w.slots, v.live[0]);
      assert false;
    }
    SweepConserves(w, 0, w.slots);
    assert All(v) == v.expired;
  }

  /** The total of a measure over a chain. */
  function Sum<T>(s: seq<Timed<T>>, m: Timed<T> -> int): int {
    if s == [] then 0 else m(s[0]) + Sum(s[1..], m)
  }

  /** The total of a measure over everything put and not yet popped. */
  function Total<T>(w: Wheel<T>, m: Timed<T> -> int): int {
    Sum(w.live, m) + Sum(w.expired, m)
  }

  lemma {:induction false} SumConcat<T>(a: seq<Timed<T>>, b: seq<Timed<T>>, m: Timed<T> -> int)
    ensures Sum(a + b, m) == Sum(a, m) + Sum(b, m)
  {
    if a == [] {
      assert a + b == b;
    } else {
      SumConcat(a[1..], b, m);
      assert (a + b)[0] == a[0] && (a + b)[1..] == a[1..] + b;
    }
  }

  lemma {:induction false} SumReversed<T>(s: seq<Timed<T>>, m: Timed<T> -> int)
    ensures Sum(Reversed(s), m) == Sum(s, m)
  {
    if s == [] {
    } else {
      SumReversed(s[1..], m);
      SumConcat(Reversed(s[1..]), [s[0]], m);
    }
  }

  lemma {:induction false} SumSplit<T>(s: seq<Timed<T>>, n: nat, k: nat, m: Timed<T> -> int)
    requires n > 0
    ensures Sum(InSlot(s, n, k), m) + Sum(OutOfSlot(s, n, k), m) == Sum(s, m)
  {
    if s == [] {
    } else {
      SumSplit(s[1..], n, k, m);
    }
  }

  /** Sweeping conserves every measure of the items. */
  lemma {:induction false} SweepKeepsTotal<T>(w: Wheel<T>, from: nat, k: nat, m: Timed<T> -> int)
    requires w.slots > 0
    ensures Total(Sweep(w, from, k), m) == Total(w, m)
    decreases k
  {
    if k == 0 {
    } else {
      SweepKeepsTotal(w, from, k - 1, m);
      var v, s := Sweep(w, from, k - 1), (from + k - 1) % w.slots;
      SumSplit(v.live, w.slots, s, m);
      SumReversed(InSlot(v.live, w.slots, s), m);
      SumConcat(Reversed(InSlot(v.live, w.slots, s)), v.expired, m);
    }
  }

  // -------------------------------------------------------------------- runs

  datatype Op<+T> = OpPut(t: nat, x: T) | OpProg(k: nat) | OpPop | OpPurge

  /** A wheel together with everything popped from it so far. */
  datatype Run<+T> = Run(wheel: Wheel<T>, popped: seq<Timed<T>>)

  function Step<T>(r: Run<T>, op: Op<T>): Run<T>
    requires r.wheel.slots > 0
  {
    match op
    case OpPut(t, x) => r.(wheel := Put(r.wheel, t, x))
    case OpProg(k) => r.(wheel := Prog(r.wheel, k))
    case OpPop => Run(Pop(r.wheel), if r.wheel.expired == [] then r.popped else r.popped + [r.wheel.expired[0]])
    case OpPurge => r.(wheel := Purge(r.wheel))
  }

  function Steps<T>(r: Run<T>, ops: seq<Op<T>>): (r': Run<T>)
    requires r.wheel.slots > 0
    ensures r'.wheel.slots == r.wheel.slots
    decreases |ops|
  {
    if ops == [] then r else Steps(Step(r, ops[0]), ops[1..])
  }

  /** What a new wheel of `n` slots and these operations lead to. */
  function RunOf<T>(n: nat, ops: seq<Op<T>>): (r: Run<T>)
    requires n > 0
    ensures r.wheel.slots == n
  {
    Steps(Run(New(n), []), ops)
  }

  lemma {:induction false} StepsConcat<T>(r: Run<T>, a: seq<Op<T>>, b: seq<Op<T>>)
    requires r.wheel.slots > 0
    ensures Steps(r, a + b) == Steps(Steps(r, a), b)
    decreases |a|
  {
    if a == [] {
      assert a + b == b;
    } else {
      assert (a + b)[1..] == a[1..] + b;
      StepsConcat(Step(r, a[0]), a[1..], b);
    }
  }

  function SerialIs<T>(n: nat): Timed<T> -> int {
    (x: Timed<T>) => if x.serial == n then 1 else 0
  }

  /** In how many of the three places the `n`-th item put is found. */
  function Places<T>(r: Run<T>, n: nat): int {
    Total(r.wheel, SerialIs(n)) + Sum(r.popped, SerialIs(n))
  }

  /** Every item ever put is in exactly one place: live, expired or popped. */
  ghost predicate Accounted<T>(r: Run<T>) {
    forall n: nat :: Places(r, n) == if n < r.wheel.puts then 1 else 0
  }

  lemma StepMovesOnly<T>(r: Run<T>, op: Op<T>, n: nat)
    requires r.wheel.slots > 0
    ensures Places(Step(r, op), n)
         == Places(r, n) + if r.wheel.puts <= n < Step(r, op).wheel.puts then 1 else 0
  {
    var w := r.wheel;
    match op
    case OpPut(t, x) =>
      if t < w.slots {
        assert Put(w, t, x).live[1..] == w.live;
      }
    case OpProg(k) =>
      SweepKeepsTotal(w, w.tick, k, SerialIs(n));
    case OpPop =>
      if w.expired != [] {
        SumConcat(r.popped, [w.expired[0]], SerialIs(n));
      }
    case OpPurge =>
      SweepKeepsTotal(w, 0, w.slots, SerialIs(n));
  }

  lemma {:induction false} RunKeepsAccounted<T>(r: Run<T>, ops: seq<Op<T>>)
    requires r.wheel.slots > 0 && Accounted(r)
    ensures Accounted(Steps(r, ops))
    decreases |ops|
  {
    if ops == [] {
    } else {
      var r' := Step(r, ops[0]);
      forall n: nat
        ensures Places(r', n) == if n < r'.wheel.puts then 1 else 0
      {
        StepMovesOnly(r, ops[0], n);
      }
      RunKeepsAccounted(r', ops[1..]);
    }
  }

  /** Over any run of a new wheel, each item put is at any time in exactly one of the three places. */
  lemma RunAccounted<T>(n: nat, ops: seq<Op<T>>)
    requires n > 0
    ensures Accounted(RunOf(n, ops))
  {
    RunKeepsAccounted(Run(New(n), []), ops);
  }

  lemma PurgeKeepsInv<T>(w: Wheel<T>)
    requires Inv(w)
    ensures Inv(Purge(w))
  {
    PurgeExpiresAll(w);
  }

  /** Every deadline stays within one turn of the current tick, and the live list newest first. */
  lemma {:induction false} RunKeepsInv<T>(r: Run<T>, ops: seq<Op<T>>)
    requires Inv(r.wheel)
    ensures Inv(Steps(r, ops).wheel)
    decreases |ops|
  {
    if ops == [] {
    } else {
      match ops[0] {
        case OpProg(k) => ProgKeepsInv(r.wheel, k);
        case OpPurge => PurgeKeepsInv(r.wheel);
        case _ =>
      }
      RunKeepsInv(Step(r, ops[0]), ops[1..]);
    }
  }

  lemma {:induction false} BatchesMember<T>(s: seq<Timed<T>>, from: nat, k: nat, x: Timed<T>)
    ensures x in Batches(s, from, k) <==> x in s && from <= x.due < from + k
    decreases k
  {
    if k == 0 {
    } else {
      BatchesMember(s, from, k - 1, x);
      DueFromMember(s, from + k - 1, x);
      ReversedSame(DueAt(s, from + k - 1));
      assert x in multiset(Reversed(DueAt(s, from + k - 1))) <==> x in Reversed(DueAt(s, from + k - 1));
    }
  }

  /** A live item leaves in exactly the `prog` call that takes the tick past its deadline, whatever
      the step, and is then on the expired stack. */
  lemma ExpiresInThatProg<T>(w: Wheel<T>, k: nat, x: Timed<T>)
    requires Inv(w) && x in w.live
    ensures x in Prog(w, k).live <==> w.tick + k <= x.due
    ensures w.tick + k > x.due ==> x in Prog(w, k).expired
  {
    ProgExact(w, k);
    DueFromMember(w.live, w.tick + k, x);
    BatchesMember(w.live, w.tick, k, x);
  }

  /** What has expired never becomes live again. */
  lemma {:induction false} GoneStaysGone<T>(r: Run<T>, ops: seq<Op<T>>, x: Timed<T>)
    requires Inv(r.wheel) && OpPurge !in ops
    requires x.due < r.wheel.tick && (x in r.wheel.expired || x in r.popped)
    ensures x !in Steps(r, ops).wheel.live && x.due < Steps(r, ops).wheel.tick
    ensures x in Steps(r, ops).wheel.expired || x in Steps(r, ops).popped
    decreases |ops|
  {
    if ops == [] {
      if x in r.wheel.live {
        assert false;
      }
    } else {
      match ops[0] {
        case OpProg(k) =>
          ProgKeepsInv(r.wheel, k);
          ProgExact(r.wheel, k);
        case _ =>
      }
      GoneStaysGone(Step(r, ops[0]), ops[1..], x);
    }
  }

  /** Exact findability over whole runs without `purge`, whatever else is put, popped or advanced
      and by whatever steps: an item is live exactly while the tick has not passed its deadline. */
  lemma {:induction false} LiveExactlyUntilDue<T>(r: Run<T>, ops: seq<Op<T>>, x: Timed<T>)
    requires Inv(r.wheel) && x in r.wheel.live
    requires OpPurge !in ops
    ensures x in Steps(r, ops).wheel.live <==> Steps(r, ops).wheel.tick <= x.due
    ensures x !in Steps(r, ops).wheel.live ==>
              x in Steps(r, ops).wheel.expired || x in Steps(r, ops).popped
    decreases |ops|
  {
    if ops == [] {
    } else {
      var r' := Step(r, ops[0]);
      match ops[0] {
        case OpProg(k) =>
          ProgKeepsInv(r.wheel, k);
          ExpiresInThatProg(r.wheel, k, x);
        case _ =>
      }
      if x in r'.wheel.live {
        LiveExactlyUntilDue(r', ops[1..], x);
      } else {
        GoneStaysGone(r', ops[1..], x);
      }
    }
  }

  /** What a list without any wheel remembers of a run: the tick, how many items were put, and every
      item put since the last purge, newest first. */
  datatype Past<+T> = Past(tick: nat, puts: nat, since: seq<Timed<T>>)

  function Recall<T>(p: Past<T>, n: nat, op: Op<T>): Past<T> {
    match op
    case OpPut(t, x) =>
      if t < n then Past(p.tick, p.puts + 1, [Timed(x, p.tick + t, p.puts)] + p.since) else p
    case OpProg(k) => p.(tick := p.tick + k)
    case OpPop => p
    case OpPurge => p.(since := [])
  }

  function PastOf<T>(n: nat, ops: seq<Op<T>>): Past<T>
    decreases |ops|
  {
    if ops == [] then Past(0, 0, [])
    else Recall(PastOf(n, ops[..|ops| - 1]), n, ops[|ops| - 1])
  }

  /** The wheel has live what the list remembers and is not past its deadline. */
  ghost predicate Remembered<T>(w: Wheel<T>, p: Past<T>) {
    w.tick == p.tick && w.puts == p.puts && w.live == DueFrom(p.since, p.tick)
  }

  lemma {:induction false} DueFromTwice<T>(s: seq<Timed<T>>, d: nat, e: nat)
    requires d <= e
    ensures DueFrom(DueFrom(s, d), e) == DueFrom(s, e)
  {
    if s == [] {
    } else {
      DueFromTwice(s[1..], d, e);
      assert s[0].due >= d ==> DueFrom(s, d)[1..] == DueFrom(s[1..], d);
    }
  }

  lemma RecallStep<T>(r: Run<T>, p: Past<T>, op: Op<T>)
    requires Inv(r.wheel) && Remembered(r.wheel, p)
    ensures Remembered(Step(r, op).wheel, Recall(p, r.wheel.slots, op))
  {
    match op
    case OpPut(t, x) =>
      assert ([Timed(x, p.tick + t, p.puts)] + p.since)[1..] == p.since;
    case OpProg(k) =>
      ProgExact(r.wheel, k);
      DueFromTwice(p.since, p.tick, p.tick + k);
    case OpPop =>
    case OpPurge =>
      PurgeExpiresAll(r.wheel);
  }

  /** Over every run of a new wheel, what is live is exactly what was put since the last purge and is
      not past its deadline, in that order. */
  lemma {:induction false} LiveIsUnexpiredPast<T>(n: nat, ops: seq<Op<T>>)
    requires n > 0
    ensures Remembered(RunOf(n, ops).wheel, PastOf(n, ops))
    decreases |ops|
  {
    if ops == [] {
    } else {
      var before, op := ops[..|ops| - 1], ops[|ops| - 1];
      LiveIsUnexpiredPast(n, before);
      RunKeepsInv(Run(New(n), []), before);
      RecallStep(RunOf(n, before), PastOf(n, before), op);
      assert ops == before + [op] && [op][1..] == [];
      hide Step, Recall, Remembered, Inv;
      StepsConcat(Run(New(n), []), before, [op]);
      assert RunOf(n, ops) == Step(RunOf(n, before), op);
    }
  }

  lemma {:induction false} RunKeepsOrder<T>(r: Run<T>, ops: seq<Op<T>>)
    requires Inv(r.wheel) && ExpiredInOrder(r.wheel) && OpPurge !in ops
    ensures ExpiredInOrder(Steps(r, ops).wheel)
    decreases |ops|
  {
    if ops == [] {
    } else {
      match ops[0] {
        case OpProg(k) =>
          ProgKeepsInv(r.wheel, k);
          ProgKeepsOrder(r.wheel, k);
        case _ =>
      }
      RunKeepsOrder(Step(r, ops[0]), ops[1..]);
    }
  }

  /** The expired stack of a new wheel is in order at every point of every run without `purge`. */
  lemma RunOrdered<T>(n: nat, ops: seq<Op<T>>)
    requires n > 0 && OpPurge !in ops
    ensures ExpiredInOrder(RunOf(n, ops).wheel) && Inv(RunOf(n, ops).wheel)
  {
    RunKeepsInv(Run(New(n), []), ops);
    RunKeepsOrder(Run(New(n), []), ops);
  }

  /** Popping as often as there are expired items returns each of them once, top first. */
  lemma {:induction false} PopsDrain<T>(r: Run<T>, pops: nat)
    requires r.wheel.slots > 0 && pops == |r.wheel.expired|
    ensures Steps(r, seq(pops, _ => OpPop)).popped == r.popped + r.wheel.expired
    ensures Steps(r, seq(pops, _ => OpPop)).wheel == r.wheel.(expired := [])
    decreases pops
  {
    var ops: seq<Op<T>> := seq(pops, _ => OpPop);
    if pops == 0 {
    } else {
      assert ops[1..] == seq(pops - 1, _ => OpPop);
      PopsDrain(Step(r, OpPop), pops - 1);
      assert r.popped + [r.wheel.expired[0]] + r.wheel.expired[1..] == r.popped + r.wheel.expired;
    }
  }

  lemma PurgeAndPops<T>(r: Run<T>)
    requires r.wheel.slots > 0
    ensures var end := Steps(r, [OpPurge] + seq(|All(r.wheel)|, _ => OpPop));
            && end.wheel.live == end.wheel.expired == [] && end.wheel.puts == r.wheel.puts
            && multiset(end.popped) == multiset(r.popped) + multiset(All(r.wheel))
  {
    PurgeExpiresAll(r.wheel);
    var r' := Step(r, OpPurge);
    assert |multiset(r'.wheel.expired)| == |multiset(All(r.wheel))|;
    var ops: seq<Op<T>> := [OpPurge] + seq(|All(r.wheel)|, _ => OpPop);
    assert ops[1..] == seq(|All(r.wheel)|, _ => OpPop);
    PopsDrain(r', |All(r.wheel)|);
  }

  lemma PlacesWhenEmpty<T>(r: Run<T>)
    requires Accounted(r) && r.wheel.live == r.wheel.expired == []
    ensures forall k: nat :: Sum(r.popped, SerialIs(k)) == if k < r.wheel.puts then 1 else 0
  {
    forall k: nat
      ensures Sum(r.popped, SerialIs(k)) == if k < r.wheel.puts then 1 else 0
    {
      assert Places(r, k) == Sum(r.popped, SerialIs(k));
    }
  }

  /** However a new wheel has been used: after `purge`, popping until empty hands out every item not
      popped before, so that each item ever put has been handed out exactly once. */
  lemma PurgeAndDrain<T>(n: nat, ops: seq<Op<T>>)
    requires n > 0
    ensures var r := RunOf(n, ops);
            var end := RunOf(n, ops + ([OpPurge] + seq(|All(r.wheel)|, _ => OpPop)));
            && end.wheel.live == end.wheel.expired == []
            && multiset(end.popped) == multiset(r.popped) + multiset(All(r.wheel))
            && forall k: nat :: Sum(end.popped, SerialIs(k)) == if k < r.wheel.puts then 1 else 0
  {
    hide Steps, Accounted;
    var r := RunOf(n, ops);
    var last: seq<Op<T>> := [OpPurge] + seq(|All(r.wheel)|, _ => OpPop);
    StepsConcat(Run(New(n), []), ops, last);
    PurgeAndPops(r);
    RunAccounted(n, ops + last);
    PlacesWhenEmpty(RunOf(n, ops + last));
  }

  // --------------------------------------------------------------- renaming

  /** The same timing with each item seen through `f`. */
  function MapItems<A, B>(s: seq<Timed<A>>, f: A -> B): (r: seq<Timed<B>>)
    ensures |r| == |s|
  {
    seq(|s|, i requires 0 <= i < |s| => Timed(f(s[i].item), s[i].due, s[i].serial))
  }

  function Map<A, B>(w: Wheel<A>, f: A -> B): Wheel<B> {
    Wheel(w.slots, w.tick, w.puts, MapItems(w.live, f), MapItems(w.expired, f))
  }

  lemma MapCons<A, B>(x: Timed<A>, s: seq<Timed<A>>, f: A -> B)
    ensures MapItems([x] + s, f) == [Timed(f(x.item), x.due, x.serial)] + MapItems(s, f)
  {
  }

  lemma {:induction false} MapSlot<A, B>(s: seq<Timed<A>>, f: A -> B, n: nat, k: nat)
    requires n > 0
    ensures InSlot(MapItems(s, f), n, k) == MapItems(InSlot(s, n, k), f)
    ensures OutOfSlot(MapItems(s, f), n, k) == MapItems(OutOfSlot(s, n, k), f)
  {
    if s == [] {
    } else {
      var x, rest := s[0], s[1..];
      MapSlot(rest, f, n, k);
      assert s == [x] + rest;
      MapCons(x, rest, f);
      MapCons(x, InSlot(rest, n, k), f);
      MapCons(x, OutOfSlot(rest, n, k), f);
      hide MapItems;
      assert MapItems(s, f)[1..] == MapItems(rest, f);
    }
  }

  lemma {:induction false} MapReversed<A, B>(s: seq<Timed<A>>, f: A -> B)
    ensures Reversed(MapItems(s, f)) == MapItems(Reversed(s), f)
  {
    if s == [] {
    } else {
      MapReversed(s[1..], f);
      assert MapItems(s, f)[1..] == MapItems(s[1..], f);
    }
  }

  lemma {:induction false} MapSweep<A, B>(w: Wheel<A>, f: A -> B, from: nat, k: nat)
    requires w.slots > 0
    ensures Map(Sweep(w, from, k), f) == Sweep(Map(w, f), from, k)
    decreases k
  {
    if k == 0 {
    } else {
      MapSweep(w, f, from, k - 1);
      var v, s := Sweep(w, from, k - 1), (from + k - 1) % w.slots;
      MapSlot(v.live, f, w.slots, s);
      MapReversed(InSlot(v.live, w.slots, s), f);
    }
  }

  /** Timing never looks at the items: every operation commutes with a change of view. */
  lemma MapCommutes<A, B>(w: Wheel<A>, f: A -> B, k: nat, t: nat, x: A)
    requires w.slots > 0
    ensures Map(Prog(w, k), f) == Prog(Map(w, f), k)
    ensures Map(Put(w, t, x), f) == Put(Map(w, f), t, f(x))
    ensures Map(Pop(w), f) == Pop(Map(w, f))
    ensures Map(Purge(w), f) == Purge(Map(w, f))
  {
    MapSweep(w, f, w.tick, k);
    MapSweep(w, f, 0, w.slots);
  }

  lemma MapAgree<A, B>(w: Wheel<A>, f: A -> B, g: A -> B)
    requires forall x | x in w.live :: f(x.item) == g(x.item)
    requires forall x | x in w.expired :: f(x.item) == g(x.item)
    ensures Map(w, f) == Map(w, g)
  {
    forall s | s == w.live || s == w.expired
      ensures MapItems(s, f) == MapItems(s, g)
    {
      forall i | 0 <= i < |s|
        ensures MapItems(s, f)[i] == MapItems(s, g)[i]
      {
        assert s[i] in s;
      }
    }
  }

  /** Seeing one live item differently is updating it. */
  lemma MapUpdate<A, B>(w: Wheel<A>, f: A -> B, g: A -> B, i: nat)
    requires i < |w.live|
    requires forall j | 0 <= j < |w.live| && j != i :: f(w.live[j].item) == g(w.live[j].item)
    requires forall x | x in w.expired :: f(x.item) == g(x.item)
    ensures Map(w, g) == Update(Map(w, f), i, g(w.live[i].item))
  {
    forall j | 0 <= j < |w.expired|
      ensures MapItems(w.expired, f)[j] == MapItems(w.expired, g)[j]
    {
      assert w.expired[j] in w.expired;
    }
  }
}
