/**
 * The state of an S4LRU Cache as a value, and its three operations as
 * functions of that value. A slot stands for one cacheItem together with
 * the list element that carries it: its identity survives the payload swap
 * of Get and the tail reuse of Set, exactly as the element does.
 */
module CacheState {
  import opened Wrappers
  import opened ListOps
  import Segments

  const Levels: nat := Segments.Levels
  const Top: nat := Segments.Top

  type SlotId = nat

  /** A cacheItem: the level of the list that holds it, its key and its value. */
  datatype Item<V> = Item(lidx: nat, key: string, value: V)

  /**
   * The fields of a Cache: the per-list capacity, the index from keys to
   * slots, the four lists of slots (front first), the slot table and the
   * next unused slot id.
   */
  datatype Store<V> = Store(
    capacity: nat,
    data: map<string, SlotId>,
    lists: seq<seq<SlotId>>,
    items: map<SlotId, Item<V>>,
    next: SlotId)

  /** Four lists, none over capacity, none holding a slot twice. */
  ghost predicate Shaped<V>(s: Store<V>) {
    && |s.lists| == Levels
    && forall i | 0 <= i < Levels :: |s.lists[i]| <= s.capacity && Distinct(s.lists[i])
  }

  /** Every listed slot is allocated and records the list that holds it. */
  ghost predicate Linked<V>(s: Store<V>)
    requires |s.lists| == Levels
  {
    forall i, id | 0 <= i < Levels && id in s.lists[i] :: id in s.items && s.items[id].lidx == i
  }

  /** Slot ids from `next` on are unused. */
  ghost predicate Allocated<V>(s: Store<V>) {
    forall id | id in s.items :: id < s.next
  }

  /** The index entry of `k` points to a live slot, in the list its level names, whose key is `k`. */
  ghost predicate Indexes<V>(s: Store<V>, k: string)
    requires |s.lists| == Levels && k in s.data
  {
    var id := s.data[k];
    id in s.items && s.items[id].key == k && s.items[id].lidx < Levels && id in s.lists[s.items[id].lidx]
  }

  /**
   * The invariant every operation keeps: list bounds, list/level agreement
   * and an index whose every entry is sound. Slots that no index entry
   * points to may remain in the lists (see SetStep on a present key).
   */
  ghost predicate Consistent<V>(s: Store<V>) {
    && Shaped(s)
    && Linked(s)
    && Allocated(s)
    && forall k | k in s.data :: Indexes(s, k)
  }

  /** The slot `id` is the one the index gives for its own key. */
  ghost predicate Owned<V>(s: Store<V>, id: SlotId)
    requires id in s.items
  {
    s.items[id].key in s.data && s.data[s.items[id].key] == id
  }

  /** The index and the listed slots correspond one to one. */
  ghost predicate Bijective<V>(s: Store<V>) {
    && Consistent(s)
    && forall i, id | 0 <= i < Levels && id in s.lists[i] :: Owned(s, id)
  }

  /** Total number of listed slots. */
  function Total<V>(s: Store<V>): nat
    requires |s.lists| == Levels
  {
    |s.lists[0]| + |s.lists[1]| + |s.lists[2]| + |s.lists[3]|
  }

  /** New: each list gets a quarter of the total capacity (integer division). */
  function Empty<V>(total: nat): (s: Store<V>)
    ensures Bijective(s)
  {
    Store(total / 4, map[], [[], [], [], []], map[], 0)
  }

  /** Len: the number of keys in the index; zero exactly when the index is empty. */
  function Len<V>(s: Store<V>): (n: nat)
    ensures n == 0 <==> s.data == map[]
  {
    |s.data|
  }

  /** Get of a key on the top list: its slot moves to the front of that list. */
  function TopState<V>(s: Store<V>, key: string): Store<V>
    requires Consistent(s) && key in s.data && s.items[s.data[key]].lidx == Top
  {
    var v := s.data[key];
    s.(lists := s.lists[Top := MoveToFront(s.lists[Top], v)])
  }

  /**
   * Get with room on the next list: the key's slot leaves its list, its
   * level goes up by one, and it is pushed onto the front of the next list.
   */
  function RoomState<V>(s: Store<V>, key: string): Store<V>
    requires Consistent(s) && key in s.data && s.items[s.data[key]].lidx < Top
  {
    var v := s.data[key];
    var item := s.items[v];
    var l := item.lidx;
    s.(lists := s.lists[l := RemoveElement(s.lists[l], v)][l + 1 := [v] + s.lists[l + 1]],
       items := s.items[v := item.(lidx := l + 1)],
       data := s.data[key := v])
  }

  /**
   * Get with the next list full: the key's slot and the back slot of the next
   * list exchange keys and values, the index follows the keys, and both
   * slots move to the front of their lists.
   */
  function SwapState<V>(s: Store<V>, key: string): Store<V>
    requires Consistent(s) && key in s.data
    requires var l := s.items[s.data[key]].lidx; l < Top && |s.lists[l + 1]| > 0
  {
    var v := s.data[key];
    var item := s.items[v];
    var l := item.lidx;
    var back := Back(s.lists[l + 1]);
    var bitem := s.items[back];
    s.(items := s.items[back := bitem.(key := item.key, value := item.value)]
                       [v := item.(key := bitem.key, value := bitem.value)],
       data := s.data[bitem.key := v][item.key := back],
       lists := s.lists[l := MoveToFront(s.lists[l], v)][l + 1 := MoveToFront(s.lists[l + 1], back)])
  }

  /**
   * Get: the new state and the value found, if any. A hit returns the value
   * stored for the key and leaves the key indexed; a miss changes nothing.
   */
  function GetStep<V>(s: Store<V>, key: string): (r: (Store<V>, Option<V>))
    requires Consistent(s)
    ensures r.0.capacity == s.capacity
    ensures key in s.data <==> r.1.Some?
    ensures key in s.data ==> r.1 == Some(s.items[s.data[key]].value) && key in r.0.data
    ensures key !in s.data ==> r.0 == s
  {
    if key !in s.data then (s, None)
    else
      var item := s.items[s.data[key]];
      assert Indexes(s, key);
      var t :=
        if item.lidx == Top then TopState(s, key)
        else if |s.lists[item.lidx + 1]| < s.capacity then RoomState(s, key)
        else SwapState(s, key);
      (t, Some(item.value))
  }

  /** Set with room on list 0: a new item in a fresh slot is pushed onto the front of list 0. */
  function PushState<V>(s: Store<V>, key: string, value: V): Store<V>
    requires |s.lists| == Levels
  {
    s.(data := s.data[key := s.next],
       lists := s.lists[0 := [s.next] + s.lists[0]],
       items := s.items[s.next := Item(0, key, value)],
       next := s.next + 1)
  }

  /**
   * Set with list 0 full: the back slot of list 0 loses its key from the
   * index, takes the new key and value, and moves to the front.
   */
  function ReuseState<V>(s: Store<V>, key: string, value: V): Store<V>
    requires Consistent(s) && |s.lists[0]| > 0
  {
    var e := Back(s.lists[0]);
    var item := s.items[e];
    s.(data := (s.data - {item.key})[key := e],
       items := s.items[e := item.(key := key, value := value)],
       lists := s.lists[0 := MoveToFront(s.lists[0], e)])
  }

  /** Set: afterwards the key is indexed to a slot at the front of list 0 holding the new value. */
  function SetStep<V>(s: Store<V>, key: string, value: V): (t: Store<V>)
    requires Consistent(s) && s.capacity > 0
    ensures t.capacity == s.capacity && |t.lists| == Levels
    ensures key in t.data && |t.lists[0]| > 0 && t.lists[0][0] == t.data[key]
    ensures t.data[key] in t.items && t.items[t.data[key]] == Item(0, key, value)
  {
    if |s.lists[0]| < s.capacity then PushState(s, key, value)
    else
      assert Back(s.lists[0]) in s.lists[0];
      ReuseState(s, key, value)
  }

  /** Remove of an indexed key: its slot is unlinked from its list and the key leaves the index. */
  function RemoveState<V>(s: Store<V>, key: string): Store<V>
    requires Consistent(s) && key in s.data
  {
    var v := s.data[key];
    var l := s.items[v].lidx;
    s.(lists := s.lists[l := RemoveElement(s.lists[l], v)], data := s.data - {key})
  }

  /**
   * Remove: the new state and the value removed, if any. Afterwards the key
   * is not indexed; a hit returns the value stored for it.
   */
  function RemoveStep<V>(s: Store<V>, key: string): (r: (Store<V>, Option<V>))
    requires Consistent(s)
    ensures r.0.capacity == s.capacity && r.0.items == s.items && key !in r.0.data
    ensures key in s.data <==> r.1.Some?
    ensures key in s.data ==> r.1 == Some(s.items[s.data[key]].value)
  {
    if key !in s.data then (s, None)
    else (RemoveState(s, key), Some(s.items[s.data[key]].value))
  }
}
