/**
 * The slot-level cache refines the reference policy of module Segments:
 * read through the slots, the lists hold exactly the segments that the
 * policy prescribes. For Set this holds on every consistent state; for Get
 * and Remove it holds when the index and the lists correspond one to one
 * (Bijective), which a stale item left by Set of a cached key can break. In
 * particular the allocation-free payload swap of Get
 * has the same effect as "remove from level i, push onto level i+1, move
 * the back of level i+1 to the front of level i".
 */
module Refinement {
  import opened Wrappers
  import opened ListOps
  import Segments
  import opened CacheState
  import opened Invariants

  /** The key/value payload a slot carries. */
  function Payload<V>(it: Item<V>): Segments.Entry<V> {
    Segments.Entry(it.key, it.value)
  }

  /** The payloads of a list of slots, front first. */
  ghost function ViewList<V>(ids: seq<SlotId>, items: map<SlotId, Item<V>>): seq<Segments.Entry<V>>
    requires forall id | id in ids :: id in items
  {
    seq(|ids|, p requires 0 <= p < |ids| => Payload(items[ids[p]]))
  }

  /** The four segments as the cache's lists hold them. */
  ghost function View<V>(s: Store<V>): (segs: Segments.Segs<V>)
    requires Consistent(s)
    ensures Segments.Bounded(segs, s.capacity)
    ensures Segments.Size(segs) == Total(s)
  {
    seq(Levels, i requires 0 <= i < Levels => ViewList(s.lists[i], s.items))
  }

  lemma ViewListDeleteAt<V>(ids: seq<SlotId>, items: map<SlotId, Item<V>>, p: nat)
    requires forall id | id in ids :: id in items
    requires p < |ids|
    ensures forall id | id in DeleteAt(ids, p) :: id in items
    ensures ViewList(DeleteAt(ids, p), items) == DeleteAt(ViewList(ids, items), p)
  {
  }

  lemma ViewListCons<V>(x: SlotId, ids: seq<SlotId>, items: map<SlotId, Item<V>>)
    requires x in items && forall id | id in ids :: id in items
    ensures ViewList([x] + ids, items) == [Payload(items[x])] + ViewList(ids, items)
  {
  }

  lemma ViewListInit<V>(ids: seq<SlotId>, items: map<SlotId, Item<V>>)
    requires |ids| > 0 && forall id | id in ids :: id in items
    ensures ViewList(ids[..|ids| - 1], items) == ViewList(ids, items)[..|ids| - 1]
  {
  }

  /** Slots whose payloads did not change read the same. */
  lemma ViewListSame<V>(ids: seq<SlotId>, items: map<SlotId, Item<V>>, items': map<SlotId, Item<V>>)
    requires forall id | id in ids :: id in items && id in items' && Payload(items'[id]) == Payload(items[id])
    ensures ViewList(ids, items') == ViewList(ids, items)
  {
  }

  /**
   * With a one-to-one index, looking a key up in the segments finds exactly
   * the list and position of the slot the index gives, and finds nothing
   * for a key the index lacks.
   */
  lemma FindMatchesIndex<V>(s: Store<V>, k: string)
    requires Bijective(s)
    ensures k !in s.data ==> Segments.Find(View(s), k).None?
    ensures k in s.data ==>
      var id := s.data[k];
      && id in s.items && s.items[id].lidx < Levels && id in s.lists[s.items[id].lidx]
      && Segments.Find(View(s), k) == Some(Segments.Loc(s.items[id].lidx, IndexOf(s.lists[s.items[id].lidx], id)))
  {
    var segs: Segments.Segs<V> := View(s);
    var r := Segments.Find(segs, k);
    if k in s.data {
      assert Indexes(s, k);
      var id := s.data[k];
      var l := s.items[id].lidx;
      var p := IndexOf(s.lists[l], id);
      assert segs[l][p].key == k;
      assert r.Some?;
      FoundIsIndexed(s, k, r.value);
      DistinctIndex(s.lists[l], r.value.pos);
    } else if r.Some? {
      FoundIsIndexed(s, k, r.value);
      assert false;
    }
  }

  /** An entry the view shows under key `k` is the slot the index gives for `k`. */
  lemma FoundIsIndexed<V>(s: Store<V>, k: string, loc: Segments.Loc)
    requires Bijective(s) && Segments.At(View(s), k, loc)
    ensures k in s.data && s.data[k] == s.lists[loc.level][loc.pos]
    ensures s.items[s.data[k]].lidx == loc.level
  {
    var id := s.lists[loc.level][loc.pos];
    assert View(s)[loc.level][loc.pos] == Payload(s.items[id]);
    ListedIsOwned(s, loc.level, id);
  }

  /** A Get on the slots reads, through the view, as the policy's Get on the segments. */
  lemma GetStepRefines<V>(s: Store<V>, key: string)
    requires Bijective(s)
    ensures Consistent(GetStep(s, key).0)
    ensures View(GetStep(s, key).0) == Segments.Get(View(s), s.capacity, key).0
    ensures GetStep(s, key).1 == Segments.Get(View(s), s.capacity, key).1
  {
    GetKeeps(s, key);
    FindMatchesIndex(s, key);
    if key in s.data {
      var v := s.data[key];
      var l := s.items[v].lidx;
      var p := IndexOf(s.lists[l], v);
      assert RemoveElement(s.lists[l], v) == DeleteAt(s.lists[l], IndexOf(s.lists[l], v));
      if l == Top {
        GetTopRefines(s, key, v, p);
      } else if |s.lists[l + 1]| < s.capacity {
        GetRoomRefines(s, key, v, p);
      } else {
        GetSwapRefines(s, key, v, p);
      }
    }
  }

  lemma GetTopRefines<V>(s: Store<V>, key: string, v: SlotId, p: nat)
    requires Bijective(s) && key in s.data && v == s.data[key]
    requires v in s.items && s.items[v].lidx == Top && v in s.lists[Top]
    requires p == IndexOf(s.lists[Top], v)
    requires RemoveElement(s.lists[Top], v) == DeleteAt(s.lists[Top], p)
    requires Consistent(GetStep(s, key).0)
    ensures View(GetStep(s, key).0) == Segments.Promote(View(s), s.capacity, Segments.Loc(Top, p))
  {
    var t := TopState(s, key);
    assert GetStep(s, key).0 == t;
    assert t.lists == s.lists[Top := [v] + DeleteAt(s.lists[Top], p)];
    var segs: Segments.Segs<V> := View(s);
    ViewListDeleteAt(s.lists[Top], s.items, p);
    ViewListCons(v, DeleteAt(s.lists[Top], p), s.items);
    assert View(t)[Top] == [segs[Top][p]] + DeleteAt(segs[Top], p);
    assert View(t)[0] == segs[0] && View(t)[1] == segs[1] && View(t)[2] == segs[2];
  }

  lemma GetRoomRefines<V>(s: Store<V>, key: string, v: SlotId, p: nat)
    requires Bijective(s) && key in s.data && v == s.data[key]
    requires v in s.items && s.items[v].lidx < Top && v in s.lists[s.items[v].lidx]
    requires |s.lists[s.items[v].lidx + 1]| < s.capacity
    requires p == IndexOf(s.lists[s.items[v].lidx], v)
    requires RemoveElement(s.lists[s.items[v].lidx], v) == DeleteAt(s.lists[s.items[v].lidx], p)
    requires Consistent(GetStep(s, key).0)
    ensures View(GetStep(s, key).0) == Segments.Promote(View(s), s.capacity, Segments.Loc(s.items[v].lidx, p))
  {
    var l := s.items[v].lidx;
    var t := RoomState(s, key);
    assert GetStep(s, key).0 == t;
    assert t.lists == s.lists[l := DeleteAt(s.lists[l], p)][l + 1 := [v] + s.lists[l + 1]];
    RoomView(s, l, v, p, t);
  }

  lemma RoomView<V>(s: Store<V>, l: nat, v: SlotId, p: nat, t: Store<V>)
    requires Consistent(s) && Consistent(t) && l < Top && p < |s.lists[l]| && s.lists[l][p] == v
    requires |s.lists[l + 1]| < s.capacity
    requires t.capacity == s.capacity && t.items == s.items[v := s.items[v].(lidx := l + 1)]
    requires t.lists == s.lists[l := DeleteAt(s.lists[l], p)][l + 1 := [v] + s.lists[l + 1]]
    ensures View(t) == Segments.Promote(View(s), s.capacity, Segments.Loc(l, p))
  {
    var segs: Segments.Segs<V> := View(s);
    assert Segments.Promote(segs, s.capacity, Segments.Loc(l, p))
        == segs[l := DeleteAt(segs[l], p)][l + 1 := [segs[l][p]] + segs[l + 1]];
    RoomViewMoved(s, l, v, p, t);
    OthersView(s, l, t, v, v);
  }

  /** The two lists the room path changes, read through the view. */
  lemma RoomViewMoved<V>(s: Store<V>, l: nat, v: SlotId, p: nat, t: Store<V>)
    requires Consistent(s) && Consistent(t) && l < Top && p < |s.lists[l]| && s.lists[l][p] == v
    requires t.items == s.items[v := s.items[v].(lidx := l + 1)]
    requires t.lists == s.lists[l := DeleteAt(s.lists[l], p)][l + 1 := [v] + s.lists[l + 1]]
    ensures View(t)[l] == DeleteAt(View(s)[l], p)
    ensures View(t)[l + 1] == [View(s)[l][p]] + View(s)[l + 1]
  {
    var rest := DeleteAt(s.lists[l], p);
    ViewListSame(rest, s.items, t.items);
    ViewListDeleteAt(s.lists[l], s.items, p);
    ViewListSame(s.lists[l + 1], s.items, t.items);
    ViewListCons(v, s.lists[l + 1], t.items);
  }

  /**
   * When only the items of slots `a` and `b`, both listed at level `l` or
   * `l + 1`, change, the other lists read the same through the view.
   */
  lemma OthersView<V>(s: Store<V>, l: nat, t: Store<V>, a: SlotId, b: SlotId)
    requires Consistent(s) && Consistent(t) && l < Top
    requires forall j | 0 <= j < Levels && j != l && j != l + 1 :: t.lists[j] == s.lists[j]
    requires a in s.items && b in s.items && a in t.items && b in t.items
    requires l <= s.items[a].lidx <= l + 1 && l <= s.items[b].lidx <= l + 1
    requires t.items == s.items[a := t.items[a]][b := t.items[b]]
    ensures forall j | 0 <= j < Levels && j != l && j != l + 1 :: View(t)[j] == View(s)[j]
  {
    forall j | 0 <= j < Levels && j != l && j != l + 1 ensures View(t)[j] == View(s)[j] {
      forall id | id in s.lists[j] ensures id in t.items && Payload(t.items[id]) == Payload(s.items[id]) {
        assert s.items[id].lidx == j;
      }
      ViewListSame(s.lists[j], s.items, t.items);
    }
  }

  lemma GetSwapRefines<V>(s: Store<V>, key: string, v: SlotId, p: nat)
    requires Bijective(s) && key in s.data && v == s.data[key]
    requires v in s.items && s.items[v].lidx < Top && v in s.lists[s.items[v].lidx]
    requires |s.lists[s.items[v].lidx + 1]| >= s.capacity
    requires p == IndexOf(s.lists[s.items[v].lidx], v)
    requires RemoveElement(s.lists[s.items[v].lidx], v) == DeleteAt(s.lists[s.items[v].lidx], p)
    requires Consistent(GetStep(s, key).0)
    ensures View(GetStep(s, key).0) == Segments.Promote(View(s), s.capacity, Segments.Loc(s.items[v].lidx, p))
  {
    SwapByPosition(s, key, v, p);
    SwapView(s, s.items[v].lidx, v, p, GetStep(s, key).0);
  }

  /** The state the swap path leaves, with its two moved lists written by position. */
  lemma SwapByPosition<V>(s: Store<V>, key: string, v: SlotId, p: nat)
    requires Consistent(s) && key in s.data && v == s.data[key]
    requires v in s.items && s.items[v].lidx < Top && v in s.lists[s.items[v].lidx]
    requires |s.lists[s.items[v].lidx + 1]| >= s.capacity
    requires p == IndexOf(s.lists[s.items[v].lidx], v)
    requires RemoveElement(s.lists[s.items[v].lidx], v) == DeleteAt(s.lists[s.items[v].lidx], p)
    ensures var l, t := s.items[v].lidx, GetStep(s, key).0;
      var up := s.lists[l + 1];
      && |up| > 0 && Back(up) != v && t.capacity == s.capacity
      && t.items == s.items[Back(up) := s.items[Back(up)].(key := s.items[v].key, value := s.items[v].value)]
                           [v := s.items[v].(key := s.items[Back(up)].key, value := s.items[Back(up)].value)]
      && t.lists == s.lists[l := [v] + DeleteAt(s.lists[l], p)][l + 1 := [Back(up)] + up[..|up| - 1]]
  {
    var l := s.items[v].lidx;
    var up := s.lists[l + 1];
    var n := |up|;
    var back := Back(up);
    BackIndex(up);
    assert RemoveElement(up, back) == DeleteAt(up, IndexOf(up, back));
    assert MoveToFront(up, back) == [back] + up[..n - 1];
    assert back in up && s.items[back].lidx == l + 1;
    assert GetStep(s, key).0 == SwapState(s, key);
  }

  lemma SwapView<V>(s: Store<V>, l: nat, v: SlotId, p: nat, t: Store<V>)
    requires Consistent(s) && Consistent(t) && l < Top && p < |s.lists[l]| && s.lists[l][p] == v
    requires |s.lists[l + 1]| >= s.capacity > 0
    requires var up := s.lists[l + 1];
      && Back(up) != v
      && t.capacity == s.capacity
      && t.items == s.items[Back(up) := s.items[Back(up)].(key := s.items[v].key, value := s.items[v].value)]
                           [v := s.items[v].(key := s.items[Back(up)].key, value := s.items[Back(up)].value)]
      && t.lists == s.lists[l := [v] + DeleteAt(s.lists[l], p)][l + 1 := [Back(up)] + up[..|up| - 1]]
    ensures View(t) == Segments.Promote(View(s), s.capacity, Segments.Loc(l, p))
  {
    var segs: Segments.Segs<V> := View(s);
    var up := s.lists[l + 1];
    var n := |up|;
    var back := Back(up);
    var rest := DeleteAt(s.lists[l], p);
    assert Segments.Promote(segs, s.capacity, Segments.Loc(l, p))
        == segs[l := [Back(segs[l + 1])] + DeleteAt(segs[l], p)][l + 1 := [segs[l][p]] + segs[l + 1][..n - 1]];
    SwapViewMoved(s, l, v, p, t);
    OthersView(s, l, t, back, v);
  }

  /** The two lists the swap path changes, read through the view. */
  lemma SwapViewMoved<V>(s: Store<V>, l: nat, v: SlotId, p: nat, t: Store<V>)
    requires Consistent(s) && Consistent(t) && l < Top && p < |s.lists[l]| && s.lists[l][p] == v
    requires |s.lists[l + 1]| > 0
    requires var up := s.lists[l + 1];
      && Back(up) != v
      && t.items == s.items[Back(up) := s.items[Back(up)].(key := s.items[v].key, value := s.items[v].value)]
                           [v := s.items[v].(key := s.items[Back(up)].key, value := s.items[Back(up)].value)]
      && t.lists == s.lists[l := [v] + DeleteAt(s.lists[l], p)][l + 1 := [Back(up)] + up[..|up| - 1]]
    ensures var n := |s.lists[l + 1]|;
      && View(t)[l] == [Back(View(s)[l + 1])] + DeleteAt(View(s)[l], p)
      && View(t)[l + 1] == [View(s)[l][p]] + View(s)[l + 1][..n - 1]
  {
    var up := s.lists[l + 1];
    var n := |up|;
    var back := Back(up);
    var rest := DeleteAt(s.lists[l], p);
    ViewListSame(rest, s.items, t.items);
    ViewListDeleteAt(s.lists[l], s.items, p);
    ViewListCons(v, rest, t.items);
    ViewListSame(up[..n - 1], s.items, t.items);
    ViewListInit(up, s.items);
    ViewListCons(back, up[..n - 1], t.items);
  }

  /**
   * A Set on the slots reads as the policy's Set on the segments: the new
   * entry at the front of segment 0, and segment 0's back entry gone when it
   * was full. This holds even when the key was already cached; the stale
   * entry then stays where it was.
   */
  lemma SetStepRefines<V>(s: Store<V>, key: string, value: V)
    requires Consistent(s) && s.capacity > 0
    ensures Consistent(SetStep(s, key, value))
    ensures View(SetStep(s, key, value)) == Segments.Set(View(s), s.capacity, key, value)
  {
    SetKeeps(s, key, value);
    var front := s.lists[0];
    if |front| < s.capacity {
      SetPushView(s, key, value, SetStep(s, key, value));
    } else {
      var n := |front|;
      var e := Back(front);
      BackIndex(front);
      assert RemoveElement(front, e) == DeleteAt(front, IndexOf(front, e));
      assert MoveToFront(front, e) == [e] + front[..n - 1];
      SetReuseView(s, key, value, SetStep(s, key, value));
    }
  }

  lemma SetPushView<V>(s: Store<V>, key: string, value: V, t: Store<V>)
    requires Consistent(s) && Consistent(t) && |s.lists[0]| < s.capacity
    requires t.capacity == s.capacity
    requires t.lists == s.lists[0 := [s.next] + s.lists[0]]
    requires t.items == s.items[s.next := Item(0, key, value)]
    ensures View(t) == Segments.Set(View(s), s.capacity, key, value)
  {
    var segs: Segments.Segs<V> := View(s);
    forall j | 0 <= j < Levels ensures View(t)[j] == Segments.Set(segs, s.capacity, key, value)[j] {
      ViewListSame(s.lists[j], s.items, t.items);
      if j == 0 {
        ViewListCons(s.next, s.lists[0], t.items);
      }
    }
  }

  lemma SetReuseView<V>(s: Store<V>, key: string, value: V, t: Store<V>)
    requires Consistent(s) && Consistent(t) && |s.lists[0]| >= s.capacity > 0
    requires t.capacity == s.capacity
    requires var front := s.lists[0];
      && t.lists == s.lists[0 := [Back(front)] + front[..|front| - 1]]
      && t.items == s.items[Back(front) := s.items[Back(front)].(key := key, value := value)]
    ensures View(t) == Segments.Set(View(s), s.capacity, key, value)
  {
    var segs: Segments.Segs<V> := View(s);
    var front := s.lists[0];
    var n := |front|;
    var e := Back(front);
    forall j | 0 <= j < Levels ensures View(t)[j] == Segments.Set(segs, s.capacity, key, value)[j] {
      if j == 0 {
        ViewListSame(front[..n - 1], s.items, t.items);
        ViewListInit(front, s.items);
        ViewListCons(e, front[..n - 1], t.items);
      } else {
        ViewListSame(s.lists[j], s.items, t.items);
      }
    }
  }

  /** A Remove on the slots reads as the policy's Remove on the segments. */
  lemma RemoveStepRefines<V>(s: Store<V>, key: string)
    requires Bijective(s)
    ensures Consistent(RemoveStep(s, key).0)
    ensures View(RemoveStep(s, key).0) == Segments.Remove(View(s), key).0
    ensures RemoveStep(s, key).1 == Segments.Remove(View(s), key).1
  {
    RemoveKeeps(s, key);
    FindMatchesIndex(s, key);
    if key in s.data {
      var v := s.data[key];
      var l := s.items[v].lidx;
      var p := IndexOf(s.lists[l], v);
      assert RemoveElement(s.lists[l], v) == DeleteAt(s.lists[l], IndexOf(s.lists[l], v));
      var t := RemoveStep(s, key).0;
      assert t.lists == s.lists[l := DeleteAt(s.lists[l], p)] && t.items == s.items;
      ViewListDeleteAt(s.lists[l], s.items, p);
      var segs: Segments.Segs<V> := View(s);
      assert View(t) == segs[l := DeleteAt(segs[l], p)] by {
        forall j | 0 <= j < Levels ensures View(t)[j] == segs[l := DeleteAt(segs[l], p)][j] {
        }
      }
    }
  }
}
