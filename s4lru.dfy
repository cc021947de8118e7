/**
 * The Cache of package s4lru: four LRU lists of cacheItems, a map from keys
 * to list elements, and a per-list capacity. Each method follows the Go
 * code statement by statement on the fields, and is specified by the step
 * function of module CacheState and, through the view of module
 * Refinement, by the reference policy of module Segments.
 */
module S4LRU {
  import opened Wrappers
  import opened ListOps
  import Segments
  import opened CacheState
  import Invariants
  import Behaviour
  import Refinement

  class Cache<V> {
    /** Per-list capacity: a quarter of the capacity given to the constructor. */
    var capacity: nat
    /** Maps each cached key to the slot (cacheItem and list element) holding it. */
    var data: map<string, SlotId>
    /** The four lists, front first; the list at level i holds items whose lidx is i. */
    var lists: seq<seq<SlotId>>
    /** The cacheItems, by slot. */
    var items: map<SlotId, Item<V>>
    /** The next slot id a pushed cacheItem receives. */
    var next: SlotId

    function Snapshot(): Store<V>
      reads this
    {
      Store(capacity, data, lists, items, next)
    }

    ghost predicate Valid()
      reads this
    {
      Consistent(Snapshot())
    }

    /** Index and lists correspond one to one; every operation but Set of a present key keeps this. */
    ghost predicate Bijective()
      reads this
    {
      CacheState.Bijective(Snapshot())
    }

    /** The cache's contents as four segments of key/value entries. */
    ghost function View(): Segments.Segs<V>
      reads this
      requires Valid()
    {
      Refinement.View(Snapshot())
    }

    /** New: a quarter of `capacity` per list, four empty lists, an empty index. */
    constructor(capacity: nat)
      ensures Snapshot() == Empty(capacity)
      ensures Valid() && Bijective() && View() == [[], [], [], []]
      ensures this.capacity == capacity / 4 && Len() == 0
    {
      this.capacity := capacity / 4;
      data := map[];
      lists := [[], [], [], []];
      items := map[];
      next := 0;
    }

    /**
     * Get: a miss returns None and changes nothing; a hit returns the
     * stored value and promotes the key as the reference policy says.
     */
    method Get(key: string) returns (value: Option<V>)
      requires Valid()
      modifies this
      ensures Valid()
      ensures (Snapshot(), value) == GetStep(old(Snapshot()), key)
      ensures key !in old(data) ==> value == None && unchanged(this)
      ensures old(Bijective()) ==>
        && Bijective()
        && View() == Segments.Get(old(View()), capacity, key).0
        && value == Segments.Get(old(View()), capacity, key).1
    {
      ghost var s := Snapshot();
      if key !in data {
        value := None;
        GetSettles(s, key, Snapshot(), value);
        return;
      }
      var v := data[key];
      var item := items[v];

      // already on the final list
      if item.lidx == |lists| - 1 {
        lists := lists[item.lidx := MoveToFront(lists[item.lidx], v)];
        value := Some(item.value);
        assert Snapshot() == TopState(s, key);
        GetSettles(s, key, Snapshot(), value);
        return;
      }

      // room on the next list: unlink, raise the level, push onto the next list
      if |lists[item.lidx + 1]| < capacity {
        lists := lists[item.lidx := RemoveElement(lists[item.lidx], v)];
        item := item.(lidx := item.lidx + 1);
        items := items[v := item];
        lists := lists[item.lidx := [v] + lists[item.lidx]];
        data := data[key := v];
        value := Some(item.value);
        assert Snapshot() == RoomState(s, key);
        GetSettles(s, key, Snapshot(), value);
        return;
      }

      // both lists full: exchange payloads with the back of the next list
      ghost var l := item.lidx;
      var back := Back(lists[item.lidx + 1]);
      var bitem := items[back];
      assert v in lists[l] && back in lists[l + 1] && bitem.lidx == l + 1;
      bitem, item := bitem.(key := item.key), item.(key := bitem.key);
      bitem, item := bitem.(value := item.value), item.(value := bitem.value);
      items := items[back := bitem][v := item];
      data := data[item.key := v];
      data := data[bitem.key := back];
      lists := lists[item.lidx := MoveToFront(lists[item.lidx], v)];
      lists := lists[bitem.lidx := MoveToFront(lists[bitem.lidx], back)];
      value := Some(bitem.value);
      assert Snapshot() == SwapState(s, key);
      GetSettles(s, key, Snapshot(), value);
    }

    /**
     * Set: with room on list 0, push a new cacheItem; otherwise reuse list
     * 0's back cacheItem, dropping its key from the index. Per-list capacity
     * must be positive: with none, list 0 has no back element to reuse.
     */
    method Set(key: string, value: V)
      requires Valid() && capacity > 0
      modifies this
      ensures Valid()
      ensures Snapshot() == SetStep(old(Snapshot()), key, value)
      ensures View() == Segments.Set(old(View()), capacity, key, value)
      ensures old(Bijective()) && key !in old(data) ==> Bijective()
    {
      ghost var s := Snapshot();
      if |lists[0]| < capacity {
        var id := next;
        next := next + 1;
        items := items[id := Item(0, key, value)];
        lists := lists[0 := [id] + lists[0]];
        data := data[key := id];
        SetSettles(s, key, value, Snapshot());
        return;
      }

      // reuse the tail item
      var e := Back(lists[0]);
      var item := items[e];
      data := data - {item.key};
      item := item.(key := key, value := value);
      items := items[e := item];
      data := data[key := e];
      lists := lists[0 := MoveToFront(lists[0], e)];
      SetSettles(s, key, value, Snapshot());
    }

    /** Len: the number of keys in the index, never more than the four lists can hold. */
    function Len(): (n: nat)
      reads this
      requires Valid()
      ensures n <= Levels * capacity
      ensures n <= Total(Snapshot())
      ensures Bijective() ==> n == Total(Snapshot())
    {
      Behaviour.LenBound(Snapshot());
      |data|
    }

    /** Remove: unlink the key's element and drop the key; a miss changes nothing. */
    method Remove(key: string) returns (value: Option<V>)
      requires Valid()
      modifies this
      ensures Valid()
      ensures (Snapshot(), value) == RemoveStep(old(Snapshot()), key)
      ensures key !in old(data) ==> value == None && unchanged(this)
      ensures old(Bijective()) ==>
        && Bijective()
        && View() == Segments.Remove(old(View()), key).0
        && value == Segments.Remove(old(View()), key).1
    {
      ghost var s := Snapshot();
      if key !in data {
        value := None;
        RemoveSettles(s, key, Snapshot(), value);
        return;
      }
      var v := data[key];
      var item := items[v];
      lists := lists[item.lidx := RemoveElement(lists[item.lidx], v)];
      data := data - {key};
      value := Some(item.value);
      RemoveSettles(s, key, Snapshot(), value);
    }
  }

  /** What Get promises, for the state and value that the step function of Get gives. */
  lemma GetSettles<V>(s: Store<V>, key: string, t: Store<V>, value: Option<V>)
    requires Consistent(s) && (t, value) == GetStep(s, key)
    ensures Consistent(t) && t.capacity == s.capacity
    ensures key !in s.data ==> value == None && t == s
    ensures Bijective(s) ==>
      && Bijective(t)
      && Refinement.View(t) == Segments.Get(Refinement.View(s), s.capacity, key).0
      && value == Segments.Get(Refinement.View(s), s.capacity, key).1
  {
    Invariants.GetKeeps(s, key);
    if Bijective(s) {
      Refinement.GetStepRefines(s, key);
    }
  }

  /** What Set promises, for the state that the step function of Set gives. */
  lemma SetSettles<V>(s: Store<V>, key: string, value: V, t: Store<V>)
    requires Consistent(s) && s.capacity > 0 && t == SetStep(s, key, value)
    ensures Consistent(t) && t.capacity == s.capacity
    ensures Refinement.View(t) == Segments.Set(Refinement.View(s), s.capacity, key, value)
    ensures Bijective(s) && key !in s.data ==> Bijective(t)
  {
    Invariants.SetKeeps(s, key, value);
    Refinement.SetStepRefines(s, key, value);
  }

  /** What Remove promises, for the state and value that the step function of Remove gives. */
  lemma RemoveSettles<V>(s: Store<V>, key: string, t: Store<V>, value: Option<V>)
    requires Consistent(s) && (t, value) == RemoveStep(s, key)
    ensures Consistent(t) && t.capacity == s.capacity
    ensures key !in s.data ==> value == None && t == s
    ensures Bijective(s) ==>
      && Bijective(t)
      && Refinement.View(t) == Segments.Remove(Refinement.View(s), key).0
      && value == Segments.Remove(Refinement.View(s), key).1
  {
    Invariants.RemoveKeeps(s, key);
    if Bijective(s) {
      Refinement.RemoveStepRefines(s, key);
    }
  }
}
