/**
 * What each operation does to the key it is given and to the others, stated
 * on the index and the slot table, and how the index size relates to the
 * lists.
 */
module Behaviour {
  import opened Wrappers
  import opened ListOps
  import Segments
  import opened CacheState
  import opened Invariants

  /**
   * Get: a miss returns nothing and changes nothing. A hit returns the
   * value stored for the key and leaves the key's slot at the front of the
   * next list up (or of the top list) with its level raised by exactly one
   * (or staying at the top).
   */
  lemma GetOutcome<V>(s: Store<V>, key: string)
    requires Consistent(s)
    ensures key !in s.data ==> GetStep(s, key) == (s, None)
    ensures key in s.data ==>
      var it, r := s.items[s.data[key]], GetStep(s, key);
      var u := Segments.Up(it.lidx);
      && r.1 == Some(it.value)
      && key in r.0.data && |r.0.lists[u]| > 0 && r.0.lists[u][0] == r.0.data[key]
      && r.0.data[key] in r.0.items && r.0.items[r.0.data[key]] == Item(u, key, it.value)
    ensures Bijective(s) ==> Len(GetStep(s, key).0) == Len(s)
  {
    if key in s.data {
      var v := s.data[key];
      var item := s.items[v];
      var l := item.lidx;
      assert Indexes(s, key);
      if l == Top {
        assert GetStep(s, key) == (TopState(s, key), Some(item.value));
        TopHit(s, key);
      } else if |s.lists[l + 1]| < s.capacity {
        assert GetStep(s, key) == (RoomState(s, key), Some(item.value));
        RoomHit(s, key);
      } else {
        GetTakesSwap(s, key);
        SwapHit(s, key, Back(s.lists[l + 1]), GetStep(s, key).0);
      }
    }
  }

  /** A hit on the top list leaves the index alone and the key's slot at the front of the top list. */
  lemma TopHit<V>(s: Store<V>, key: string)
    requires Consistent(s) && key in s.data && s.items[s.data[key]].lidx == Top
    ensures var t := TopState(s, key);
      && t.data == s.data && t.items == s.items
      && |t.lists[Top]| > 0 && t.lists[Top][0] == s.data[key]
  {
  }

  /** The room path keeps the key in its slot, now at the front of the next list with its level raised. */
  lemma RoomHit<V>(s: Store<V>, key: string)
    requires Consistent(s) && key in s.data && s.items[s.data[key]].lidx < Top
    ensures var v, t := s.data[key], RoomState(s, key);
      var it := s.items[v];
      && t.data == s.data && |t.lists[it.lidx + 1]| > 0 && t.lists[it.lidx + 1][0] == v
      && v in t.items && t.items[v] == Item(it.lidx + 1, key, it.value)
  {
    assert Indexes(s, key);
  }

  /** The swap path leaves the hit key at the front of the next list up, in the slot that was at its back. */
  lemma SwapHit<V>(s: Store<V>, key: string, back: SlotId, t: Store<V>)
    requires Consistent(s) && key in s.data && IsSwap(s, key, back, t)
    ensures var it := s.items[s.data[key]];
      && key in t.data && t.data[key] == back && |t.lists[it.lidx + 1]| > 0 && t.lists[it.lidx + 1][0] == back
      && back in t.items && t.items[back] == Item(it.lidx + 1, key, it.value)
    ensures Bijective(s) ==> t.data.Keys == s.data.Keys
  {
    var l := s.items[s.data[key]].lidx;
    assert Indexes(s, key);
    assert s.items[back].lidx == l + 1;
    if Bijective(s) {
      ListedIsOwned(s, l + 1, back);
    }
  }

  /**
   * The swap path of Get (a hit below the top with the next list full): no
   * list changes length, and the key that was at the back of the next list
   * ends at the front of the hit key's old list, one level down, with its
   * value unchanged. With a one-to-one index that key is never the hit key.
   */
  lemma GetSwapOutcome<V>(s: Store<V>, key: string)
    requires Consistent(s) && key in s.data
    requires var l := s.items[s.data[key]].lidx; l < Top && |s.lists[l + 1]| >= s.capacity
    ensures var l, t := s.items[s.data[key]].lidx, GetStep(s, key).0;
      var b := s.items[Back(s.lists[l + 1])];
      && (forall j | 0 <= j < Levels :: |t.lists[j]| == |s.lists[j]|)
      && (b.key != key ==>
            && b.key in t.data && |t.lists[l]| > 0 && t.lists[l][0] == t.data[b.key]
            && t.data[b.key] in t.items && t.items[t.data[b.key]] == Item(l, b.key, b.value))
      && (Bijective(s) ==> b.key != key)
  {
    GetTakesSwap(s, key);
    SwapShape(s, key, GetStep(s, key).0);
    SwapDemoted(s, key, GetStep(s, key).0);
  }

  /** The swap moves one slot to the front of each of two lists, so no list changes length. */
  lemma SwapShape<V>(s: Store<V>, key: string, t: Store<V>)
    requires Consistent(s) && key in s.data
    requires var l := s.items[s.data[key]].lidx; l < Top && |s.lists[l + 1]| > 0
    requires t == SwapState(s, key)
    ensures var l := s.items[s.data[key]].lidx;
      && (forall j | 0 <= j < Levels :: |t.lists[j]| == |s.lists[j]|)
      && |t.lists[l]| > 0 && t.lists[l][0] == s.data[key]
  {
    assert Indexes(s, key);
  }

  /**
   * The key that was at the back of the next list takes over the hit key's
   * slot, at the front of the hit key's list, with its own value; under a
   * one-to-one index it is never the hit key.
   */
  lemma SwapDemoted<V>(s: Store<V>, key: string, t: Store<V>)
    requires Consistent(s) && key in s.data
    requires var l := s.items[s.data[key]].lidx; l < Top && |s.lists[l + 1]| > 0
    requires t == SwapState(s, key)
    ensures var l := s.items[s.data[key]].lidx;
      var b := s.items[Back(s.lists[l + 1])];
      && (b.key != key ==>
            && b.key in t.data && |t.lists[l]| > 0 && t.lists[l][0] == t.data[b.key]
            && t.data[b.key] in t.items && t.items[t.data[b.key]] == Item(l, b.key, b.value))
      && (Bijective(s) ==> b.key != key)
  {
    var l := s.items[s.data[key]].lidx;
    var back := Back(s.lists[l + 1]);
    assert back in s.lists[l + 1];
    SwapShape(s, key, t);
    if Bijective(s) {
      ListedIsOwned(s, l + 1, back);
    }
  }

  /**
   * Set: the key ends at the front of list 0 with the given value. With
   * room in list 0 the key is added to the index; otherwise the key of the
   * reused back slot of list 0 is dropped from it. Every other indexed key
   * keeps its slot and item.
   */
  lemma SetOutcome<V>(s: Store<V>, key: string, value: V)
    requires Consistent(s) && s.capacity > 0
    ensures var t := SetStep(s, key, value);
      && key in t.data && |t.lists[0]| > 0 && t.lists[0][0] == t.data[key]
      && t.data[key] in t.items && t.items[t.data[key]] == Item(0, key, value)
      && (|s.lists[0]| < s.capacity ==> t.data.Keys == s.data.Keys + {key})
      && (|s.lists[0]| >= s.capacity ==> t.data.Keys == s.data.Keys - {s.items[Back(s.lists[0])].key} + {key})
      && forall k | k in t.data && k != key :: k in s.data && t.data[k] == s.data[k] && t.items[t.data[k]] == s.items[s.data[k]]
  {
    var t := SetStep(s, key, value);
    if |s.lists[0]| < s.capacity {
      assert s.next !in s.items;
      forall k | k in t.data && k != key ensures t.items[t.data[k]] == s.items[s.data[k]] {
        assert Indexes(s, k);
      }
    } else {
      var e := Back(s.lists[0]);
      assert e in s.lists[0];
      forall k | k in t.data && k != key ensures t.items[t.data[k]] == s.items[s.data[k]] {
        assert Indexes(s, k);
      }
    }
  }

  /**
   * Set of an absent key on a one-to-one index: with room, Len grows by
   * one; on a full list 0 exactly the former back key of list 0 is evicted
   * and Len is unchanged.
   */
  lemma SetAbsentOutcome<V>(s: Store<V>, key: string, value: V)
    requires Bijective(s) && s.capacity > 0 && key !in s.data
    ensures var t := SetStep(s, key, value);
      && (|s.lists[0]| < s.capacity ==> Len(t) == Len(s) + 1)
      && (|s.lists[0]| >= s.capacity ==>
            var evicted := s.items[Back(s.lists[0])].key;
            && evicted in s.data && evicted !in t.data && Len(t) == Len(s)
            && forall k | k in s.data && k != evicted :: k in t.data)
  {
    SetOutcome(s, key, value);
    if |s.lists[0]| >= s.capacity {
      ListedIsOwned(s, 0, Back(s.lists[0]));
    }
  }

  /** Round trip: Get right after Set of a key returns the value just set. */
  lemma SetThenGet<V>(s: Store<V>, key: string, value: V)
    requires Consistent(s) && s.capacity > 0
    ensures Consistent(SetStep(s, key, value))
    ensures GetStep(SetStep(s, key, value), key).1 == Some(value)
  {
    SetKeeps(s, key, value);
    SetOutcome(s, key, value);
    GetOutcome(SetStep(s, key, value), key);
  }

  /**
   * Remove: a miss returns nothing and changes nothing. A hit returns the
   * key's value, drops exactly that key from the index, and leaves every
   * other key's slot and item as they were.
   */
  lemma RemoveOutcome<V>(s: Store<V>, key: string)
    requires Consistent(s)
    ensures key !in s.data ==> RemoveStep(s, key) == (s, None)
    ensures key in s.data ==>
      var r := RemoveStep(s, key);
      && r.1 == Some(s.items[s.data[key]].value)
      && r.0.data.Keys == s.data.Keys - {key} && Len(r.0) == Len(s) - 1
      && (forall k | k in r.0.data :: r.0.data[k] == s.data[k])
      && r.0.items == s.items
      && Total(r.0) == Total(s) - 1
  {
    if key in s.data {
      var v := s.data[key];
      var l := s.items[v].lidx;
      assert Indexes(s, key);
      var t := RemoveState(s, key);
      assert RemoveStep(s, key) == (t, Some(s.items[v].value));
      RemoveHitCounts(s, key, l, t);
    }
  }

  lemma RemoveHitCounts<V>(s: Store<V>, key: string, l: nat, t: Store<V>)
    requires |s.lists| == Levels && l < Levels && key in s.data && s.data[key] in s.lists[l]
    requires t.lists == s.lists[l := RemoveElement(s.lists[l], s.data[key])] && t.data == s.data - {key}
    ensures Len(t) == Len(s) - 1 && Total(t) == Total(s) - 1
  {
    assert t.data.Keys == s.data.Keys - {key};
  }

  /**
   * Set of a key that is already cached leaves its old slot listed. On a
   * cache built with total capacity 4: Set b, Get b, Set b again, then Set
   * of another key a evicts b; a Get of a then swaps payloads with b's old
   * slot, and b is indexed again, with the value it had before its second
   * Set.
   */
  lemma StaleComeback<V>(a: string, b: string, v1: V, v2: V, va: V)
    requires a != b
    ensures var s1 := SetStep(Empty(4), b, v1);
      && Consistent(s1)
      && var s2 := GetStep(s1, b).0;
      && Consistent(s2)
      && var s3 := SetStep(s2, b, v2);
      && Consistent(s3)
      && var s4 := SetStep(s3, a, va);
      && Consistent(s4) && b !in s4.data
      && var s5 := GetStep(s4, a);
      && s5.1 == Some(va) && Consistent(s5.0)
      && b in s5.0.data && GetStep(s5.0, b).1 == Some(v1)
  {
    var s1 := Store(1, map[b := 0], [[0], [], [], []], map[0 := Item(0, b, v1)], 1);
    var s2 := Store(1, map[b := 0], [[], [0], [], []], map[0 := Item(1, b, v1)], 1);
    var s3 := Store(1, map[b := 1], [[1], [0], [], []], map[0 := Item(1, b, v1), 1 := Item(0, b, v2)], 2);
    var s4 := Store(1, map[a := 1], [[1], [0], [], []], map[0 := Item(1, b, v1), 1 := Item(0, a, va)], 2);
    var s5 := Store(1, map[a := 0, b := 1], [[1], [0], [], []], map[0 := Item(1, a, va), 1 := Item(0, b, v1)], 2);
    StaleFirstSet(b, v1, s1);
    StaleFirstGet(b, v1, s1, s2);
    GetKeeps(s1, b);
    StaleSecondSet(b, v1, v2, s2, s3);
    SetKeeps(s2, b, v2);
    StaleEviction(a, b, v1, v2, va, s3, s4);
    SetKeeps(s3, a, va);
    StaleSwap(a, b, v1, va, s4, s5);
    GetKeeps(s4, a);
    assert Indexes(s5, b);
  }

  lemma StaleFirstSet<V>(b: string, v1: V, s1: Store<V>)
    requires s1 == Store(1, map[b := 0], [[0], [], [], []], map[0 := Item(0, b, v1)], 1)
    ensures Consistent(Empty<V>(4)) && SetStep(Empty(4), b, v1) == s1 && Consistent(s1)
  {
    var s0: Store<V> := Empty(4);
    SetKeeps(s0, b, v1);
    assert [0] + s0.lists[0] == [0];
    assert s0.lists[0 := [0]] == [[0], [], [], []];
  }

  lemma StaleFirstGet<V>(b: string, v1: V, s1: Store<V>, s2: Store<V>)
    requires s1 == Store(1, map[b := 0], [[0], [], [], []], map[0 := Item(0, b, v1)], 1) && Consistent(s1)
    requires s2 == Store(1, map[b := 0], [[], [0], [], []], map[0 := Item(1, b, v1)], 1)
    ensures GetStep(s1, b).0 == s2
  {
    Singleton(0);
    assert [0] + s1.lists[1] == [0];
    assert s1.lists[0 := []][1 := [0]] == s2.lists;
    assert s1.items[0 := Item(1, b, v1)] == s2.items;
    assert s1.data[b := 0] == s2.data;
  }

  lemma StaleSecondSet<V>(b: string, v1: V, v2: V, s2: Store<V>, s3: Store<V>)
    requires s2 == Store(1, map[b := 0], [[], [0], [], []], map[0 := Item(1, b, v1)], 1) && Consistent(s2)
    requires s3 == Store(1, map[b := 1], [[1], [0], [], []], map[0 := Item(1, b, v1), 1 := Item(0, b, v2)], 2)
    ensures SetStep(s2, b, v2) == s3
  {
    assert [1] + s2.lists[0] == [1];
    assert s2.lists[0 := [1]] == [[1], [0], [], []];
  }

  lemma StaleEviction<V>(a: string, b: string, v1: V, v2: V, va: V, s3: Store<V>, s4: Store<V>)
    requires a != b
    requires s3 == Store(1, map[b := 1], [[1], [0], [], []], map[0 := Item(1, b, v1), 1 := Item(0, b, v2)], 2)
    requires Consistent(s3)
    requires s4 == Store(1, map[a := 1], [[1], [0], [], []], map[0 := Item(1, b, v1), 1 := Item(0, a, va)], 2)
    ensures SetStep(s3, a, va) == s4 && b !in s4.data
  {
    Singleton(1);
    assert s3.lists[0 := [1]] == s3.lists;
    EvictOne(a, b);
  }

  lemma EvictOne(a: string, b: string)
    ensures (map[b := 1] - {b})[a := 1] == map[a := 1]
  {
    assert (map[b := 1] - {b}) == map[];
  }

  lemma StaleSwap<V>(a: string, b: string, v1: V, va: V, s4: Store<V>, s5: Store<V>)
    requires a != b
    requires s4 == Store(1, map[a := 1], [[1], [0], [], []], map[0 := Item(1, b, v1), 1 := Item(0, a, va)], 2)
    requires Consistent(s4)
    requires s5 == Store(1, map[a := 0, b := 1], [[1], [0], [], []], map[0 := Item(1, a, va), 1 := Item(0, b, v1)], 2)
    ensures GetStep(s4, a) == (s5, Some(va))
  {
    StaleSwapStep(a, b, v1, va, s4);
    RekeyTwo(a, b);
    RefillTwo(Item(1, b, v1), Item(0, a, va), Item(1, a, va), Item(0, b, v1));
  }

  lemma RekeyTwo(a: string, b: string)
    requires a != b
    ensures map[a := 1][b := 1][a := 0] == map[a := 0, b := 1]
  {
  }

  lemma RefillTwo<V>(x0: Item<V>, x1: Item<V>, y0: Item<V>, y1: Item<V>)
    ensures map[0 := x0, 1 := x1][0 := y0][1 := y1] == map[0 := y0, 1 := y1]
  {
  }

  /** The swap of the trace, field by field. */
  lemma StaleSwapStep<V>(a: string, b: string, v1: V, va: V, s4: Store<V>)
    requires a != b
    requires s4 == Store(1, map[a := 1], [[1], [0], [], []], map[0 := Item(1, b, v1), 1 := Item(0, a, va)], 2)
    requires Consistent(s4)
    ensures GetStep(s4, a)
      == (s4.(items := s4.items[0 := Item(1, a, va)][1 := Item(0, b, v1)], data := s4.data[b := 1][a := 0]), Some(va))
  {
    assert Back(s4.lists[1]) == 0;
    Singleton(1);
    Singleton(0);
    assert s4.lists[0 := [1]][1 := [0]] == s4.lists;
  }

  /** The index never holds more keys than the lists hold slots, nor more than four lists' worth. */
  lemma LenBound<V>(s: Store<V>)
    requires Consistent(s)
    ensures Len(s) <= Total(s) <= Levels * s.capacity
    ensures Bijective(s) ==> Len(s) == Total(s)
  {
    var k0 := AtLevel(s, 0);
    var k1 := AtLevel(s, 1);
    var k2 := AtLevel(s, 2);
    var k3 := AtLevel(s, 3);
    LevelCount(s, 0);
    LevelCount(s, 1);
    LevelCount(s, 2);
    LevelCount(s, 3);
    LevelsPartition(s);
    DisjointCard(k0, k1, k2, k3);
  }

  /** Every indexed key sits at exactly one level. */
  lemma LevelsPartition<V>(s: Store<V>)
    requires Consistent(s)
    ensures s.data.Keys == AtLevel(s, 0) + AtLevel(s, 1) + AtLevel(s, 2) + AtLevel(s, 3)
    ensures forall i, j | 0 <= i < j < Levels :: AtLevel(s, i) !! AtLevel(s, j)
  {
    forall k | k in s.data ensures k in AtLevel(s, 0) + AtLevel(s, 1) + AtLevel(s, 2) + AtLevel(s, 3) {
      assert Indexes(s, k);
    }
  }

  lemma DisjointCard<T>(a: set<T>, b: set<T>, c: set<T>, d: set<T>)
    requires a !! b && a !! c && a !! d && b !! c && b !! d && c !! d
    ensures |a + b + c + d| == |a| + |b| + |c| + |d|
  {
    assert |a + b| == |a| + |b|;
    assert (a + b) !! c;
    assert |a + b + c| == |a| + |b| + |c|;
    assert (a + b + c) !! d;
  }

  /** The keys whose slot the index places at level `i`. */
  ghost function AtLevel<V>(s: Store<V>, i: nat): set<string>
    requires Consistent(s)
  {
    set k | k in s.data && s.items[s.data[k]].lidx == i
  }

  /** The keys indexed at level `i` are no more than the slots of list `i`, and as many when one to one. */
  lemma LevelCount<V>(s: Store<V>, i: nat)
    requires Consistent(s) && i < Levels
    ensures |AtLevel(s, i)| <= |s.lists[i]|
    ensures Bijective(s) ==> |AtLevel(s, i)| == |s.lists[i]|
  {
    var ks := AtLevel(s, i);
    var ids := set x | x in s.lists[i];
    SeqSetCard(s.lists[i]);
    forall k | k in ks ensures s.data[k] in ids {
      assert Indexes(s, k);
    }
    forall k, k' | k in ks && k' in ks && s.data[k] == s.data[k'] ensures k == k' {
      assert Indexes(s, k) && Indexes(s, k');
    }
    InjectionBound(ks, ids, s.data);
    if Bijective(s) {
      var owner := map x | x in ids :: s.items[x].key;
      forall x | x in ids ensures x in owner && owner[x] in ks {
        ListedIsOwned(s, i, x);
      }
      forall x, x' | x in ids && x' in ids && owner[x] == owner[x'] ensures x == x' {
        ListedIsOwned(s, i, x);
        ListedIsOwned(s, i, x');
      }
      InjectionBound(ids, ks, owner);
    }
  }

  /** A sequence has no more distinct elements than positions, and as many when it has no repeats. */
  lemma {:induction false} SeqSetCard<T>(xs: seq<T>)
    ensures |set x | x in xs| <= |xs|
    ensures Distinct(xs) ==> |set x | x in xs| == |xs|
  {
    if xs != [] {
      SeqSetCard(xs[1..]);
      assert (set x | x in xs) == {xs[0]} + set x | x in xs[1..];
      if Distinct(xs) {
        assert xs[0] !in xs[1..];
      }
    }
  }

  /** A map that sends `xs` into `ys` without merging two elements shows `xs` is no larger. */
  lemma {:induction false} InjectionBound<A, B>(xs: set<A>, ys: set<B>, f: map<A, B>)
    requires forall x | x in xs :: x in f && f[x] in ys
    requires forall x, x' | x in xs && x' in xs && f[x] == f[x'] :: x == x'
    ensures |xs| <= |ys|
  {
    if xs != {} {
      var x :| x in xs;
      InjectionBound(xs - {x}, ys - {f[x]}, f);
    }
  }
}
