/**
 * A client of the Cache that replays the package's own usage scenario with
 * a total capacity of 4 (one entry per list): two keys climb the lists by
 * payload swaps, one is removed, and four further keys, each read four
 * times, flush the other out of the cache.
 */
module Scenario {
  import opened Wrappers
  import opened ListOps
  import opened Segments
  import Refinement
  import opened S4LRU

  /** The values the scenario stores: strings and loop counters. */
  datatype Payload = Text(s: string) | Number(n: int)

  // Lookups with one entry per segment.

  /** A segment of at most one entry that does not hold key `k`. */
  predicate Lacks<V>(seg: seq<Entry<V>>, k: string) {
    seg == [] || seg[0].key != k
  }

  /** No segment below `l` holds key `k`, in segments of at most one entry. */
  predicate AbsentBelow<V>(segs: Segs<V>, k: string, l: nat)
    requires |segs| == Levels
  {
    && (l > 0 ==> Lacks(segs[0], k))
    && (l > 1 ==> Lacks(segs[1], k))
    && (l > 2 ==> Lacks(segs[2], k))
    && (l > 3 ==> Lacks(segs[3], k))
  }

  /** A segment of at most one entry that lacks `k` has no position holding it. */
  lemma LacksNone<V>(seg: seq<Entry<V>>, k: string)
    requires |seg| <= 1 && Lacks(seg, k)
    ensures FindIn(seg, k).None?
  {
    if seg != [] {
      assert seg[1..] == [];
    }
  }

  /** A key at the front of segment `l`, and in no segment below, is found there. */
  lemma {:induction false} FindFront<V>(segs: Segs<V>, k: string, l: nat, from: nat)
    requires Bounded(segs, 1) && from <= l < Levels && |segs[l]| > 0 && segs[l][0].key == k
    requires AbsentBelow(segs, k, l)
    ensures FindFrom(segs, k, from) == Some(Loc(l, 0))
    decreases l - from
  {
    if from < l {
      assert Lacks(segs[from], k);
      LacksNone(segs[from], k);
      FindFront(segs, k, l, from + 1);
    }
  }

  /** A key in no segment at or above `from` is not found there. */
  lemma {:induction false} FindAbsent<V>(segs: Segs<V>, k: string, from: nat)
    requires Bounded(segs, 1) && from <= Levels && AbsentBelow(segs, k, Levels)
    ensures FindFrom(segs, k, from).None?
    decreases Levels - from
  {
    if from < Levels {
      assert Lacks(segs[from], k);
      LacksNone(segs[from], k);
      FindAbsent(segs, k, from + 1);
    }
  }

  /** A hit at the top segment leaves a one-entry-per-segment cache as it is. */
  lemma GetTop<V>(segs: Segs<V>, k: string, x: Entry<V>)
    requires Bounded(segs, 1) && segs[Top] == [x] && x.key == k && AbsentBelow(segs, k, Top)
    ensures Get(segs, 1, k) == (segs, Some(x.value))
  {
    FindFront(segs, k, Top, 0);
    assert Find(segs, k) == Some(Loc(Top, 0));
    assert DeleteAt(segs[Top], 0) == [];
    assert [x] + [] == [x];
    assert segs[Top := [x]] == segs;
  }

  /** A hit below the top with an empty segment above moves the entry up. */
  lemma GetRoom<V>(segs: Segs<V>, k: string, l: nat, x: Entry<V>, r: Segs<V>)
    requires Bounded(segs, 1) && l < Top && segs[l] == [x] && x.key == k && AbsentBelow(segs, k, l)
    requires segs[l + 1] == [] && r == segs[l := []][l + 1 := [x]]
    ensures Get(segs, 1, k) == (r, Some(x.value))
  {
    FindFront(segs, k, l, 0);
    assert Find(segs, k) == Some(Loc(l, 0));
    assert DeleteAt(segs[l], 0) == [];
    assert [x] + [] == [x];
  }

  /** A hit below the top with a full segment above exchanges the two entries. */
  lemma GetSwap<V>(segs: Segs<V>, k: string, l: nat, x: Entry<V>, y: Entry<V>, r: Segs<V>)
    requires Bounded(segs, 1) && l < Top && segs[l] == [x] && x.key == k && AbsentBelow(segs, k, l)
    requires segs[l + 1] == [y] && r == segs[l := [y]][l + 1 := [x]]
    ensures Get(segs, 1, k) == (r, Some(x.value))
  {
    FindFront(segs, k, l, 0);
    assert Find(segs, k) == Some(Loc(l, 0));
    assert DeleteAt(segs[l], 0) == [];
    assert segs[l + 1][..0] == [];
    assert [y] + [] == [y] && [x] + [] == [x];
  }

  /** A key in no segment is a miss. */
  lemma GetMiss<V>(segs: Segs<V>, k: string)
    requires Bounded(segs, 1) && AbsentBelow(segs, k, Levels)
    ensures Find(segs, k).None?
    ensures Get(segs, 1, k) == (segs, None)
  {
    FindAbsent(segs, k, 0);
  }

  /** An insertion into one-entry segments replaces segment 0 with the new entry. */
  lemma SetSingle<V>(segs: Segs<V>, k: string, v: V)
    requires Bounded(segs, 1)
    ensures Set(segs, 1, k, v) == segs[0 := [Entry(k, v)]]
  {
    if |segs[0]| < 1 {
      assert [Entry(k, v)] + segs[0] == [Entry(k, v)];
    } else {
      assert [Entry(k, v)] + segs[0][..0] == [Entry(k, v)];
    }
  }

  /** Removing the only entry of segment `l`. */
  lemma RemoveFront<V>(segs: Segs<V>, k: string, l: nat, x: Entry<V>)
    requires Bounded(segs, 1) && l < Levels && segs[l] == [x] && x.key == k && AbsentBelow(segs, k, l)
    ensures Remove(segs, k) == (segs[l := []], Some(x.value))
  {
    FindFront(segs, k, l, 0);
    assert Find(segs, k) == Some(Loc(l, 0));
    assert DeleteAt(segs[l], 0) == [];
  }

  /** Each state in `states` is the one before it after a lookup of `k`. */
  ghost predicate Lookups<V>(states: seq<Segs<V>>, cap: nat, k: string) {
    forall j | 0 <= j < |states| - 1 :: Bounded(states[j], cap) && Get(states[j], cap, k).0 == states[j + 1]
  }

  /** Four lookups in a row, the last of them at the top, make a chain of five states. */
  lemma FourLookups<V>(a: Segs<V>, b: Segs<V>, c: Segs<V>, d: Segs<V>, k: string)
    requires Bounded(a, 1) && Bounded(b, 1) && Bounded(c, 1) && Bounded(d, 1)
    requires Get(a, 1, k).0 == b && Get(b, 1, k).0 == c && Get(c, 1, k).0 == d && Get(d, 1, k).0 == d
    ensures Lookups([a, b, c, d, d], 1, k)
  {
    var states := [a, b, c, d, d];
    forall j | 0 <= j < |states| - 1 ensures Bounded(states[j], 1) && Get(states[j], 1, k).0 == states[j + 1] {
      assert states[j] == if j == 0 then a else if j == 1 then b else if j == 2 then c else d;
    }
  }

  // The entries of the scenario; "extraN" is the key fmt.Sprintf("extra%d", N) builds.

  const Foo1: Entry<Payload> := Entry("foo1", Text("bar1"))
  const Foo2: Entry<Payload> := Entry("foo2", Text("bar2"))
  const Extra0: Entry<Payload> := Entry("extra0", Number(0))
  const Extra1: Entry<Payload> := Entry("extra1", Number(1))
  const Extra2: Entry<Payload> := Entry("extra2", Number(2))
  const Extra3: Entry<Payload> := Entry("extra3", Number(3))

  /** The scenario's keys are pairwise distinct where it matters. */
  lemma KeysDistinct()
    ensures Foo1.key != Foo2.key
    ensures Extra0.key != Foo2.key && Extra1.key != Foo2.key && Extra2.key != Foo2.key && Extra3.key != Foo2.key
    ensures Extra1.key != Extra0.key && Extra2.key != Extra0.key && Extra2.key != Extra1.key
    ensures Extra3.key != Extra0.key && Extra3.key != Extra1.key && Extra3.key != Extra2.key
  {
    assert Foo1.key[3] != Foo2.key[3];
    assert Extra0.key[0] != Foo2.key[0] && Extra1.key[0] != Foo2.key[0];
    assert Extra2.key[0] != Foo2.key[0] && Extra3.key[0] != Foo2.key[0];
    assert Extra1.key[5] != Extra0.key[5] && Extra2.key[5] != Extra0.key[5] && Extra2.key[5] != Extra1.key[5];
    assert Extra3.key[5] != Extra0.key[5] && Extra3.key[5] != Extra1.key[5] && Extra3.key[5] != Extra2.key[5];
  }

  /**
   * The four rounds of the flushing loop, each from the state the one
   * before leaves: the new entry `x` is stored and climbs to the top.
   */
  lemma RoundRoomSwapRoom<V>(x: Entry<V>, y: Entry<V>)
    requires x.key != y.key
    ensures Set([[], [], [y], []], 1, x.key, x.value) == [[x], [], [y], []]
    ensures Lookups([[[x], [], [y], []], [[], [x], [y], []], [[], [y], [x], []], [[], [y], [], [x]], [[], [y], [], [x]]], 1, x.key)
  {
    var k := x.key;
    SetSingle([[], [], [y], []], k, x.value);
    var a: Segs<V> := [[x], [], [y], []];
    var b: Segs<V> := [[], [x], [y], []];
    var c: Segs<V> := [[], [y], [x], []];
    var d: Segs<V> := [[], [y], [], [x]];
    assert Get(a, 1, k).0 == b by { GetRoom(a, k, 0, x, b); }
    assert Get(b, 1, k).0 == c by { GetSwap(b, k, 1, x, y, c); }
    assert Get(c, 1, k).0 == d by { GetRoom(c, k, 2, x, d); }
    assert Get(d, 1, k).0 == d by { GetTop(d, k, x); }
    FourLookups(a, b, c, d, k);
  }

  lemma RoundSwapRoomSwap<V>(x: Entry<V>, y: Entry<V>, z: Entry<V>)
    requires x.key != y.key && x.key != z.key
    ensures Set([[], [y], [], [z]], 1, x.key, x.value) == [[x], [y], [], [z]]
    ensures Lookups([[[x], [y], [], [z]], [[y], [x], [], [z]], [[y], [], [x], [z]], [[y], [], [z], [x]], [[y], [], [z], [x]]], 1, x.key)
  {
    var k := x.key;
    SetSingle([[], [y], [], [z]], k, x.value);
    var a: Segs<V> := [[x], [y], [], [z]];
    var b: Segs<V> := [[y], [x], [], [z]];
    var c: Segs<V> := [[y], [], [x], [z]];
    var d: Segs<V> := [[y], [], [z], [x]];
    assert Get(a, 1, k).0 == b by { GetSwap(a, k, 0, x, y, b); }
    assert Get(b, 1, k).0 == c by { GetRoom(b, k, 1, x, c); }
    assert Get(c, 1, k).0 == d by { GetSwap(c, k, 2, x, z, d); }
    assert Get(d, 1, k).0 == d by { GetTop(d, k, x); }
    FourLookups(a, b, c, d, k);
  }

  lemma RoundEvictRoomSwapSwap<V>(x: Entry<V>, w: Entry<V>, y: Entry<V>, z: Entry<V>)
    requires x.key != y.key && x.key != z.key
    ensures Set([[w], [], [y], [z]], 1, x.key, x.value) == [[x], [], [y], [z]]
    ensures Lookups([[[x], [], [y], [z]], [[], [x], [y], [z]], [[], [y], [x], [z]], [[], [y], [z], [x]], [[], [y], [z], [x]]], 1, x.key)
  {
    var k := x.key;
    SetSingle([[w], [], [y], [z]], k, x.value);
    var a: Segs<V> := [[x], [], [y], [z]];
    var b: Segs<V> := [[], [x], [y], [z]];
    var c: Segs<V> := [[], [y], [x], [z]];
    var d: Segs<V> := [[], [y], [z], [x]];
    assert Get(a, 1, k).0 == b by { GetRoom(a, k, 0, x, b); }
    assert Get(b, 1, k).0 == c by { GetSwap(b, k, 1, x, y, c); }
    assert Get(c, 1, k).0 == d by { GetSwap(c, k, 2, x, z, d); }
    assert Get(d, 1, k).0 == d by { GetTop(d, k, x); }
    FourLookups(a, b, c, d, k);
  }

  lemma RoundSwapSwapSwap<V>(x: Entry<V>, y: Entry<V>, z: Entry<V>, u: Entry<V>)
    requires x.key != y.key && x.key != z.key && x.key != u.key
    ensures Set([[], [y], [z], [u]], 1, x.key, x.value) == [[x], [y], [z], [u]]
    ensures Lookups([[[x], [y], [z], [u]], [[y], [x], [z], [u]], [[y], [z], [x], [u]], [[y], [z], [u], [x]], [[y], [z], [u], [x]]], 1, x.key)
  {
    var k := x.key;
    SetSingle([[], [y], [z], [u]], k, x.value);
    var a: Segs<V> := [[x], [y], [z], [u]];
    var b: Segs<V> := [[y], [x], [z], [u]];
    var c: Segs<V> := [[y], [z], [x], [u]];
    var d: Segs<V> := [[y], [z], [u], [x]];
    assert Get(a, 1, k).0 == b by { GetSwap(a, k, 0, x, y, b); }
    assert Get(b, 1, k).0 == c by { GetSwap(b, k, 1, x, z, c); }
    assert Get(c, 1, k).0 == d by { GetSwap(c, k, 2, x, u, d); }
    assert Get(d, 1, k).0 == d by { GetTop(d, k, x); }
    FourLookups(a, b, c, d, k);
  }

  // The client: the Cache's methods restated on the segments alone.

  /** The cache in a known state: one entry per list, index one to one, contents `segs`. */
  ghost predicate Holds(c: Cache<Payload>, segs: Segs<Payload>)
    reads c
  {
    c.Valid() && c.Bijective() && c.capacity == 1 && c.View() == segs
  }

  method Lookup(c: Cache<Payload>, key: string) returns (value: Option<Payload>)
    requires c.Valid() && c.Bijective()
    modifies c
    ensures c.Valid() && c.Bijective() && c.capacity == old(c.capacity)
    ensures (c.View(), value) == Get(old(c.View()), c.capacity, key)
  {
    value := c.Get(key);
  }

  /** Storing a key the cache does not hold. */
  method Insert(c: Cache<Payload>, key: string, value: Payload)
    requires c.Valid() && c.Bijective() && c.capacity > 0
    requires Find(c.View(), key).None?
    modifies c
    ensures c.Valid() && c.Bijective() && c.capacity == old(c.capacity)
    ensures c.View() == Set(old(c.View()), c.capacity, key, value)
  {
    Refinement.FindMatchesIndex(c.Snapshot(), key);
    c.Set(key, value);
  }

  method Delete(c: Cache<Payload>, key: string) returns (value: Option<Payload>)
    requires c.Valid() && c.Bijective()
    modifies c
    ensures c.Valid() && c.Bijective() && c.capacity == old(c.capacity)
    ensures (c.View(), value) == Remove(old(c.View()), key)
  {
    value := c.Remove(key);
  }

  /**
   * One round of the flushing loop: store `value` under a new `key`, then
   * look `key` up `count` times, passing through `states`.
   */
  method SetAndRead(c: Cache<Payload>, key: string, value: Payload, count: nat, ghost states: seq<Segs<Payload>>)
    requires c.Valid() && c.Bijective() && c.capacity > 0
    requires Find(c.View(), key).None?
    requires |states| == count + 1 && states[0] == Set(c.View(), c.capacity, key, value)
    requires Lookups(states, c.capacity, key)
    modifies c
    ensures c.Valid() && c.Bijective() && c.capacity == old(c.capacity)
    ensures c.View() == states[count]
  {
    Insert(c, key, value);
    var j := 0;
    while j < count
      invariant j <= count
      invariant c.Valid() && c.Bijective() && c.capacity == old(c.capacity)
      invariant c.View() == states[j]
    {
      var _ := Lookup(c, key);
      j := j + 1;
    }
  }

  /** The segments the opening steps pass through. */
  lemma OpeningTrace<V>(x: Entry<V>)
    ensures Get<V>([[], [], [], []], 1, x.key) == ([[], [], [], []], None)
    ensures Find<V>([[], [], [], []], x.key).None?
    ensures Set<V>([[], [], [], []], 1, x.key, x.value) == [[x], [], [], []]
    ensures Get([[x], [], [], []], 1, x.key) == ([[], [x], [], []], Some(x.value))
  {
    var blank: Segs<V> := [[], [], [], []];
    GetMiss(blank, x.key);
    SetSingle(blank, x.key, x.value);
    GetRoom([[x], [], [], []], x.key, 0, x, [[], [x], [], []]);
  }

  /** The segments the promotion steps pass through. */
  lemma PromotionsTrace<V>(x: Entry<V>, y: Entry<V>)
    requires x.key != y.key
    ensures Find([[], [x], [], []], y.key).None?
    ensures Set([[], [x], [], []], 1, y.key, y.value) == [[y], [x], [], []]
    ensures Get([[y], [x], [], []], 1, y.key).0 == [[x], [y], [], []]
    ensures Get([[x], [y], [], []], 1, x.key).0 == [[y], [x], [], []]
    ensures Get([[x], [y], [], []], 1, y.key) == ([[x], [], [y], []], Some(y.value))
  {
    var s2: Segs<V> := [[], [x], [], []];
    var s3: Segs<V> := [[y], [x], [], []];
    var s4: Segs<V> := [[x], [y], [], []];
    assert Find(s2, y.key).None? by { GetMiss(s2, y.key); }
    assert Set(s2, 1, y.key, y.value) == s3 by { SetSingle(s2, y.key, y.value); }
    GetSwap(s3, y.key, 0, y, x, s4);
    GetSwap(s4, x.key, 0, x, y, s3);
    GetRoom(s4, y.key, 1, y, [[x], [], [y], []]);
  }

  /** The segments the removal steps pass through. */
  lemma RemovalTrace<V>(x: Entry<V>, y: Entry<V>)
    requires x.key != y.key
    ensures Remove([[x], [], [y], []], x.key).0 == [[], [], [y], []]
    ensures Get([[], [], [y], []], 1, x.key) == ([[], [], [y], []], None)
  {
    RemoveFront([[x], [], [y], []], x.key, 0, x);
    GetMiss([[], [], [y], []], x.key);
  }

  /** A miss on the empty cache; `x` (foo1) stored, then read back and promoted to list 1. */
  method Opening(c: Cache<Payload>, x: Entry<Payload>) returns (empty: Option<Payload>, first: Option<Payload>)
    requires Holds(c, [[], [], [], []])
    modifies c
    ensures Holds(c, [[], [x], [], []])
    ensures empty == None && first == Some(x.value)
  {
    OpeningTrace(x);
    empty := Lookup(c, x.key);
    Insert(c, x.key, x.value);
    first := Lookup(c, x.key);
  }

  /** `y` (foo2) stored; `y` and `x` (foo1) swap places three times; `y` then climbs to list 2. */
  method Promotions(c: Cache<Payload>, x: Entry<Payload>, y: Entry<Payload>) returns (promoted: Option<Payload>)
    requires x.key != y.key
    requires Holds(c, [[], [x], [], []])
    modifies c
    ensures Holds(c, [[x], [], [y], []])
    ensures promoted == Some(y.value)
  {
    PromotionsTrace(x, y);
    Insert(c, y.key, y.value);
    var _ := Lookup(c, y.key);
    var _ := Lookup(c, x.key);
    var _ := Lookup(c, y.key);
    promoted := Lookup(c, y.key);
  }

  /** `x` (foo1) removed, and then missed. */
  method Removal(c: Cache<Payload>, x: Entry<Payload>, y: Entry<Payload>) returns (removed: Option<Payload>)
    requires x.key != y.key
    requires Holds(c, [[x], [], [y], []])
    modifies c
    ensures Holds(c, [[], [], [y], []])
    ensures removed == None
  {
    RemovalTrace(x, y);
    var _ := Delete(c, x.key);
    removed := Lookup(c, x.key);
  }

  /** The flushing loop, one round per key extra0 .. extra3 (`e0` .. `e3`), each read four times. */
  method Flush(c: Cache<Payload>, y: Entry<Payload>, e0: Entry<Payload>, e1: Entry<Payload>, e2: Entry<Payload>, e3: Entry<Payload>)
    requires e0.key != y.key && e1.key != y.key && e2.key != y.key && e3.key != y.key
    requires e1.key != e0.key && e2.key != e0.key && e2.key != e1.key
    requires e3.key != e0.key && e3.key != e1.key && e3.key != e2.key
    requires Holds(c, [[], [], [y], []])
    modifies c
    ensures Holds(c, [[e0], [e1], [e2], [e3]])
  {
    GetMiss([[], [], [y], []], e0.key);
    RoundRoomSwapRoom(e0, y);
    SetAndRead(c, e0.key, e0.value, 4,
      [[[e0], [], [y], []], [[], [e0], [y], []], [[], [y], [e0], []], [[], [y], [], [e0]], [[], [y], [], [e0]]]);

    GetMiss([[], [y], [], [e0]], e1.key);
    RoundSwapRoomSwap(e1, y, e0);
    SetAndRead(c, e1.key, e1.value, 4,
      [[[e1], [y], [], [e0]], [[y], [e1], [], [e0]], [[y], [], [e1], [e0]], [[y], [], [e0], [e1]], [[y], [], [e0], [e1]]]);

    GetMiss([[y], [], [e0], [e1]], e2.key);
    RoundEvictRoomSwapSwap(e2, y, e0, e1);
    SetAndRead(c, e2.key, e2.value, 4,
      [[[e2], [], [e0], [e1]], [[], [e2], [e0], [e1]], [[], [e0], [e2], [e1]], [[], [e0], [e1], [e2]], [[], [e0], [e1], [e2]]]);

    GetMiss([[], [e0], [e1], [e2]], e3.key);
    RoundSwapSwapSwap(e3, e0, e1, e2);
    SetAndRead(c, e3.key, e3.value, 4,
      [[[e3], [e0], [e1], [e2]], [[e0], [e3], [e1], [e2]], [[e0], [e1], [e3], [e2]], [[e0], [e1], [e2], [e3]], [[e0], [e1], [e2], [e3]]]);
  }

  /**
   * The package's usage scenario on a cache of total capacity 4: the
   * lookups it checks give exactly the results it expects, ending with foo2
   * flushed out.
   */
  method TestCache() returns (empty: Option<Payload>, first: Option<Payload>, promoted: Option<Payload>,
                              removed: Option<Payload>, flushed: Option<Payload>)
    ensures empty == None
    ensures first == Some(Text("bar1"))
    ensures promoted == Some(Text("bar2"))
    ensures removed == None
    ensures flushed == None
  {
    KeysDistinct();
    var c := new Cache<Payload>(4);
    empty, first := Opening(c, Foo1);
    promoted := Promotions(c, Foo1, Foo2);
    removed := Removal(c, Foo1, Foo2);
    Flush(c, Foo2, Extra0, Extra1, Extra2, Extra3);
    flushed := Lookup(c, Foo2.key);
    GetMiss([[Extra0], [Extra1], [Extra2], [Extra3]], Foo2.key);
  }
}
