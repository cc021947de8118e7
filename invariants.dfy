/**
 * What each operation keeps: the list bounds and a sound index always, the
 * one-to-one correspondence between index and lists whenever the operation
 * cannot orphan a slot.
 */
module Invariants {
  import opened Wrappers
  import opened ListOps
  import opened CacheState

  lemma EmptyIsBijective<V>(total: nat)
    ensures var s: Store<V> := Empty(total);
      Bijective(s) && Len(s) == 0 && s.capacity == total / 4 && forall i | 0 <= i < Levels :: s.lists[i] == []
  {
  }

  lemma GetTopKeeps<V>(s: Store<V>, key: string)
    requires Consistent(s) && key in s.data && s.items[s.data[key]].lidx == Top
    ensures Consistent(GetStep(s, key).0)
    ensures Bijective(s) ==> Bijective(GetStep(s, key).0)
  {
    assert Indexes(s, key);
    var t := TopState(s, key);
    assert GetStep(s, key).0 == t;
    ReorderKeeps(s, Top, t);
  }

  /** Reordering one list, without changing which slots it holds, keeps both invariants. */
  lemma ReorderKeeps<V>(s: Store<V>, i: nat, t: Store<V>)
    requires Consistent(s) && i < Levels
    requires |t.lists| == Levels && t == s.(lists := s.lists[i := t.lists[i]])
    requires |t.lists[i]| == |s.lists[i]| && Distinct(t.lists[i])
    requires forall id | id in t.lists[i] :: id in s.lists[i]
    requires forall id | id in s.lists[i] :: id in t.lists[i]
    ensures Consistent(t)
    ensures Bijective(s) ==> Bijective(t)
  {
    assert Linked(t) by {
      forall j, id | 0 <= j < Levels && id in t.lists[j] ensures id in t.items && t.items[id].lidx == j {
        assert id in s.lists[j];
      }
    }
    forall k | k in t.data ensures Indexes(t, k) {
      assert Indexes(s, k);
    }
    if Bijective(s) {
      forall j, id | 0 <= j < Levels && id in t.lists[j] ensures Owned(t, id) {
        assert id in s.lists[j];
        ListedIsOwned(s, j, id);
      }
    }
  }

  lemma GetRoomKeeps<V>(s: Store<V>, key: string)
    requires Consistent(s) && key in s.data
    requires var l := s.items[s.data[key]].lidx; l < Top && |s.lists[l + 1]| < s.capacity
    ensures Consistent(GetStep(s, key).0)
    ensures Bijective(s) ==> Bijective(GetStep(s, key).0)
  {
    var v := s.data[key];
    var t := RoomState(s, key);
    assert GetStep(s, key).0 == t;
    assert t == s.(lists := t.lists, items := t.items);
    RoomPreserves(s, v, t);
  }

  /** `t` is `s` after the room path of Get moved slot `v` up one list. */
  ghost predicate IsRoom<V>(s: Store<V>, v: SlotId, t: Store<V>) {
    && Consistent(s) && v in s.items
    && var l := s.items[v].lidx;
    && l < Top && v in s.lists[l] && |s.lists[l + 1]| < s.capacity
    && t.lists == s.lists[l := RemoveElement(s.lists[l], v)][l + 1 := [v] + s.lists[l + 1]]
    && t == s.(lists := t.lists, items := s.items[v := s.items[v].(lidx := l + 1)])
  }

  lemma RoomPreserves<V>(s: Store<V>, v: SlotId, t: Store<V>)
    requires IsRoom(s, v, t)
    ensures Consistent(t)
    ensures Bijective(s) ==> Bijective(t)
  {
    RoomShaped(s, v, t);
    RoomLinked(s, v, t);
    RoomIndexed(s, v, t);
    if Bijective(s) {
      RoomOwned(s, v, t);
    }
  }

  lemma RoomShaped<V>(s: Store<V>, v: SlotId, t: Store<V>)
    requires IsRoom(s, v, t)
    ensures Shaped(t)
  {
    var l := s.items[v].lidx;
    assert v !in s.lists[l + 1];
  }

  lemma RoomLinked<V>(s: Store<V>, v: SlotId, t: Store<V>)
    requires IsRoom(s, v, t) && |t.lists| == Levels
    ensures Linked(t)
  {
    forall i, id | 0 <= i < Levels && id in t.lists[i] ensures id in t.items && t.items[id].lidx == i {
      if id != v {
        assert id in s.lists[i];
      }
    }
  }

  lemma RoomIndexed<V>(s: Store<V>, v: SlotId, t: Store<V>)
    requires IsRoom(s, v, t) && |t.lists| == Levels
    ensures forall k | k in t.data :: Indexes(t, k)
  {
    forall k | k in t.data ensures Indexes(t, k) {
      assert Indexes(s, k);
    }
  }

  lemma RoomOwned<V>(s: Store<V>, v: SlotId, t: Store<V>)
    requires IsRoom(s, v, t) && Bijective(s) && Consistent(t)
    ensures Bijective(t)
  {
    var l := s.items[v].lidx;
    forall i, id | 0 <= i < Levels && id in t.lists[i] ensures Owned(t, id) {
      if id != v {
        assert id in s.lists[i];
        ListedIsOwned(s, i, id);
      } else {
        ListedIsOwned(s, l, v);
      }
    }
  }

  lemma GetSwapKeeps<V>(s: Store<V>, key: string)
    requires Consistent(s) && key in s.data
    requires var l := s.items[s.data[key]].lidx; l < Top && |s.lists[l + 1]| >= s.capacity
    ensures Consistent(GetStep(s, key).0)
    ensures Bijective(s) ==> Bijective(GetStep(s, key).0)
  {
    var l := s.items[s.data[key]].lidx;
    GetTakesSwap(s, key);
    var back := Back(s.lists[l + 1]);
    SwapPreserves(s, key, back, GetStep(s, key).0);
  }

  /** A hit below the top with the next list full takes the swap path, and the next list is not empty. */
  lemma GetTakesSwap<V>(s: Store<V>, key: string)
    requires Consistent(s) && key in s.data
    requires var l := s.items[s.data[key]].lidx; l < Top && |s.lists[l + 1]| >= s.capacity
    ensures var l := s.items[s.data[key]].lidx;
      && |s.lists[l + 1]| > 0 && IsSwap(s, key, Back(s.lists[l + 1]), GetStep(s, key).0)
      && GetStep(s, key).1 == Some(s.items[s.data[key]].value)
  {
    assert Indexes(s, key);
    assert GetStep(s, key).0 == SwapState(s, key);
  }

  lemma ListedIsOwned<V>(s: Store<V>, i: nat, id: SlotId)
    requires Bijective(s) && i < Levels && id in s.lists[i]
    ensures id in s.items && Owned(s, id)
  {
  }

  /** `t` is `s` after the payload swap of a hit on `key` with `back`, the back slot of the next list. */
  ghost predicate IsSwap<V>(s: Store<V>, key: string, back: SlotId, t: Store<V>)
    requires Consistent(s) && key in s.data
  {
    var l := s.items[s.data[key]].lidx;
    && l < Top && |s.lists[l + 1]| > 0 && back == Back(s.lists[l + 1]) && back in s.lists[l + 1]
    && t == SwapState(s, key)
  }

  lemma SwapPreserves<V>(s: Store<V>, key: string, back: SlotId, t: Store<V>)
    requires Consistent(s) && key in s.data && IsSwap(s, key, back, t)
    ensures Consistent(t)
    ensures Bijective(s) ==> Bijective(t)
  {
    SwapSameSlots(s, key, back, t);
    SwapLinked(s, key, back, t);
    SwapIndexed(s, key, back, t);
    if Bijective(s) {
      SwapOwned(s, key, back, t);
      assert Consistent(t);
    }
  }

  lemma SwapSameSlots<V>(s: Store<V>, key: string, back: SlotId, t: Store<V>)
    requires Consistent(s) && key in s.data && IsSwap(s, key, back, t)
    ensures Shaped(t) && Allocated(t)
    ensures forall i, id | 0 <= i < Levels :: id in t.lists[i] <==> id in s.lists[i]
    ensures s.data[key] != back
  {
    assert Indexes(s, key);
  }

  lemma SwapLinked<V>(s: Store<V>, key: string, back: SlotId, t: Store<V>)
    requires Consistent(s) && key in s.data && IsSwap(s, key, back, t)
    requires Shaped(t) && forall i, id | 0 <= i < Levels :: id in t.lists[i] <==> id in s.lists[i]
    requires s.data[key] != back
    ensures Linked(t)
  {
    var v := s.data[key];
    assert t.items == s.items[back := t.items[back]][v := t.items[v]];
    assert t.items[v].lidx == s.items[v].lidx && t.items[back].lidx == s.items[back].lidx;
    forall i, id | 0 <= i < Levels && id in t.lists[i] ensures id in t.items && t.items[id].lidx == i {
      assert id in s.lists[i];
    }
  }

  lemma SwapIndexed<V>(s: Store<V>, key: string, back: SlotId, t: Store<V>)
    requires Consistent(s) && key in s.data && IsSwap(s, key, back, t)
    requires Shaped(t) && forall i, id | 0 <= i < Levels :: id in t.lists[i] <==> id in s.lists[i]
    requires s.data[key] != back
    ensures forall k | k in t.data :: Indexes(t, k)
  {
    var v := s.data[key];
    var bkey := s.items[back].key;
    assert Indexes(s, key);
    forall k | k in t.data ensures Indexes(t, k) {
      if k != key && k != bkey {
        assert Indexes(s, k);
        assert s.data[k] != v && s.data[k] != back;
        assert t.data[k] == s.data[k];
      }
    }
  }

  lemma SwapOwned<V>(s: Store<V>, key: string, back: SlotId, t: Store<V>)
    requires Bijective(s) && key in s.data && IsSwap(s, key, back, t)
    requires forall i, id | 0 <= i < Levels :: id in t.lists[i] <==> id in s.lists[i]
    requires s.data[key] != back
    ensures forall i, id | 0 <= i < Levels && id in t.lists[i] :: id in t.items && Owned(t, id)
  {
    var v, bkey := s.data[key], s.items[back].key;
    SwapRepoints(s, key, back, t);
    forall i, id | 0 <= i < Levels && id in t.lists[i] ensures id in t.items && Owned(t, id) {
      assert id in s.lists[i];
      if id == v {
        assert t.data[bkey] == v;
      } else if id == back {
        assert t.data[key] == back;
      } else {
        ListedIsOwned(s, i, id);
        var k := s.items[id].key;
        assert t.items[id] == s.items[id] && k != key && k != bkey;
        assert t.data[k] == s.data[k];
      }
    }
  }

  /**
   * Under a one-to-one index the swap exchanges the keys of the two slots
   * and repoints both index entries; every other slot keeps its item.
   */
  lemma SwapRepoints<V>(s: Store<V>, key: string, back: SlotId, t: Store<V>)
    requires Bijective(s) && key in s.data && IsSwap(s, key, back, t)
    ensures var v, bkey := s.data[key], s.items[back].key;
      && v != back && bkey != key && bkey in s.data && s.data[bkey] == back && v in t.items && back in t.items
      && t.items[v].key == bkey && t.items[back].key == key
      && t.data == s.data[bkey := v][key := back]
      && forall id | id in s.items && id != v && id != back :: id in t.items && t.items[id] == s.items[id]
  {
    var v := s.data[key];
    var l := s.items[v].lidx;
    assert Indexes(s, key);
    assert Owned(s, back) by { assert back in s.lists[l + 1]; }
  }

  /** Get keeps the invariant, and keeps the index one to one with the lists. */
  lemma GetKeeps<V>(s: Store<V>, key: string)
    requires Consistent(s)
    ensures Consistent(GetStep(s, key).0)
    ensures Bijective(s) ==> Bijective(GetStep(s, key).0)
  {
    if key in s.data {
      var l := s.items[s.data[key]].lidx;
      if l == Top {
        GetTopKeeps(s, key);
      } else if |s.lists[l + 1]| < s.capacity {
        GetRoomKeeps(s, key);
      } else {
        GetSwapKeeps(s, key);
      }
    }
  }

  /**
   * Set keeps the invariant; it keeps the index one to one with the lists
   * when the key was absent.
   */
  lemma SetKeeps<V>(s: Store<V>, key: string, value: V)
    requires Consistent(s) && s.capacity > 0
    ensures Consistent(SetStep(s, key, value))
    ensures Bijective(s) && key !in s.data ==> Bijective(SetStep(s, key, value))
  {
    if |s.lists[0]| < s.capacity {
      SetPushKeeps(s, key, value);
    } else {
      SetReuseKeeps(s, key, value);
    }
  }

  lemma SetPushKeeps<V>(s: Store<V>, key: string, value: V)
    requires Consistent(s) && |s.lists[0]| < s.capacity
    ensures Consistent(SetStep(s, key, value))
    ensures Bijective(s) && key !in s.data ==> Bijective(SetStep(s, key, value))
  {
    var id := s.next;
    var t := PushState(s, key, value);
    assert SetStep(s, key, value) == t;
    assert id !in s.items;
    PushLinked(s, key, value, t);
    PushIndexed(s, key, value, t);
    if Bijective(s) && key !in s.data {
      PushOwned(s, key, value, t);
    }
  }

  /** The state Set leaves when it pushes the fresh slot `s.next` onto list 0 for `key`. */
  ghost predicate IsPush<V>(s: Store<V>, key: string, value: V, t: Store<V>) {
    && Consistent(s) && |s.lists[0]| < s.capacity && s.next !in s.items
    && t == PushState(s, key, value)
  }

  lemma PushLinked<V>(s: Store<V>, key: string, value: V, t: Store<V>)
    requires IsPush(s, key, value, t)
    ensures Shaped(t) && Linked(t) && Allocated(t)
  {
    var id := s.next;
    assert id !in s.lists[0];
    forall i, x | 0 <= i < Levels && x in t.lists[i] ensures x in t.items && t.items[x].lidx == i {
      if x != id {
        assert x in s.lists[i];
      }
    }
  }

  lemma PushIndexed<V>(s: Store<V>, key: string, value: V, t: Store<V>)
    requires IsPush(s, key, value, t)
    ensures forall k | k in t.data :: Indexes(t, k)
  {
    forall k | k in t.data ensures Indexes(t, k) {
      if k != key {
        assert Indexes(s, k);
      }
    }
  }

  lemma PushOwned<V>(s: Store<V>, key: string, value: V, t: Store<V>)
    requires IsPush(s, key, value, t) && Bijective(s) && key !in s.data
    requires Consistent(t)
    ensures Bijective(t)
  {
    var id := s.next;
    forall i, x | 0 <= i < Levels && x in t.lists[i] ensures Owned(t, x) {
      if x != id {
        assert x in s.lists[i];
        ListedIsOwned(s, i, x);
      }
    }
  }

  lemma SetReuseKeeps<V>(s: Store<V>, key: string, value: V)
    requires Consistent(s) && 0 < s.capacity <= |s.lists[0]|
    ensures Consistent(SetStep(s, key, value))
    ensures Bijective(s) && key !in s.data ==> Bijective(SetStep(s, key, value))
  {
    var e := Back(s.lists[0]);
    assert e in s.lists[0];
    var t := ReuseState(s, key, value);
    assert SetStep(s, key, value) == t;
    ReuseConsistent(s, key, value, e, t);
    if Bijective(s) && key !in s.data {
      ReuseOwned(s, key, value, e, t);
    }
  }

  /** The state Set leaves when it reuses `e`, the back slot of list 0, for `key`. */
  ghost predicate IsReuse<V>(s: Store<V>, key: string, value: V, e: SlotId, t: Store<V>) {
    && Consistent(s) && |s.lists[0]| > 0 && e == Back(s.lists[0]) && e in s.lists[0] && e in s.items
    && t == ReuseState(s, key, value)
  }

  lemma ReuseConsistent<V>(s: Store<V>, key: string, value: V, e: SlotId, t: Store<V>)
    requires IsReuse(s, key, value, e, t)
    ensures Consistent(t)
  {
    assert Shaped(t);
    assert Linked(t) by {
      forall i, x | 0 <= i < Levels && x in t.lists[i] ensures x in t.items && t.items[x].lidx == i {
        assert x in s.lists[i];
      }
    }
    forall k | k in t.data ensures Indexes(t, k) {
      if k != key {
        assert Indexes(s, k);
        assert s.data[k] != e;
      }
    }
  }

  lemma ReuseOwned<V>(s: Store<V>, key: string, value: V, e: SlotId, t: Store<V>)
    requires IsReuse(s, key, value, e, t) && Bijective(s) && key !in s.data
    requires Consistent(t)
    ensures Bijective(t)
  {
    ListedIsOwned(s, 0, e);
    forall i, x | 0 <= i < Levels && x in t.lists[i] ensures Owned(t, x) {
      if x != e {
        assert x in s.lists[i];
        ListedIsOwned(s, i, x);
      }
    }
  }

  /**
   * Set of a cached key whose own slot is the back of a full list 0 reuses
   * that very slot: no stale item is left, and the index stays one to one.
   */
  lemma SetReuseOwnKeeps<V>(s: Store<V>, key: string, value: V)
    requires Bijective(s) && 0 < s.capacity <= |s.lists[0]|
    requires key in s.data && s.data[key] == Back(s.lists[0])
    ensures Bijective(SetStep(s, key, value))
    ensures SetStep(s, key, value).data == s.data
  {
    var e := Back(s.lists[0]);
    assert e in s.lists[0];
    var t := ReuseState(s, key, value);
    assert SetStep(s, key, value) == t;
    assert Indexes(s, key);
    assert t.data == s.data;
    SetReuseKeeps(s, key, value);
    forall i, x | 0 <= i < Levels && x in t.lists[i] ensures Owned(t, x) {
      assert x in s.lists[i];
      ListedIsOwned(s, i, x);
    }
  }

  /** Remove keeps the invariant, and keeps the index one to one with the lists. */
  lemma RemoveKeeps<V>(s: Store<V>, key: string)
    requires Consistent(s)
    ensures Consistent(RemoveStep(s, key).0)
    ensures Bijective(s) ==> Bijective(RemoveStep(s, key).0)
  {
    if key in s.data {
      RemoveHitKeeps(s, key);
    }
  }

  lemma RemoveHitKeeps<V>(s: Store<V>, key: string)
    requires Consistent(s) && key in s.data
    ensures Consistent(RemoveStep(s, key).0)
    ensures Bijective(s) ==> Bijective(RemoveStep(s, key).0)
  {
    var t := RemoveState(s, key);
    assert RemoveStep(s, key).0 == t;
    RemoveConsistent(s, key, t);
    if Bijective(s) {
      RemoveOwned(s, key, t);
    }
  }

  lemma RemoveConsistent<V>(s: Store<V>, key: string, t: Store<V>)
    requires Consistent(s) && key in s.data
    requires t == RemoveState(s, key)
    ensures Consistent(t)
  {
    assert Indexes(s, key);
    RemoveLinked(s, key, t);
    RemoveIndexed(s, key, t);
  }

  lemma RemoveLinked<V>(s: Store<V>, key: string, t: Store<V>)
    requires Consistent(s) && key in s.data && Indexes(s, key)
    requires var v := s.data[key]; var l := s.items[v].lidx;
      t.lists == s.lists[l := RemoveElement(s.lists[l], v)] && t.items == s.items && t.capacity == s.capacity
    ensures Shaped(t) && Linked(t)
  {
    var l := s.items[s.data[key]].lidx;
    assert forall j | 0 <= j < Levels && j != l :: t.lists[j] == s.lists[j];
    assert Shaped(t) by {
      assert Distinct(s.lists[l]) && |t.lists[l]| < |s.lists[l]|;
    }
    forall i, x | 0 <= i < Levels && x in t.lists[i] ensures x in t.items && t.items[x].lidx == i {
      assert x in s.lists[i];
    }
  }

  lemma RemoveIndexed<V>(s: Store<V>, key: string, t: Store<V>)
    requires Consistent(s) && key in s.data && Indexes(s, key)
    requires t == RemoveState(s, key)
    ensures Allocated(t) && forall k | k in t.data :: Indexes(t, k)
  {
    var v := s.data[key];
    forall k | k in t.data ensures Indexes(t, k) {
      assert Indexes(s, k);
      assert s.data[k] != v;
    }
  }

  lemma RemoveOwned<V>(s: Store<V>, key: string, t: Store<V>)
    requires Bijective(s) && key in s.data
    requires t == RemoveState(s, key)
    requires Consistent(t)
    ensures Bijective(t)
  {
    var v := s.data[key];
    assert Indexes(s, key);
    forall i, x | 0 <= i < Levels && x in t.lists[i] ensures Owned(t, x) {
      assert x in s.lists[i] && x != v;
      ListedIsOwned(s, i, x);
    }
  }
}
