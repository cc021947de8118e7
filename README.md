# S4LRU cache in Dafny

A model of the Go package `s4lru`, a 4-segmented LRU cache. The cache has
four LRU lists, at levels 0 to 3, and each list holds at most a quarter of
the total capacity.
- **Miss:** Get returns nothing and changes nothing. Set of a new key
  inserts it at the front of list 0.
- **Hit:** the key moves to the front of the next list up. A key already on
  list 3 moves to the front of list 3.
- **Hit below the top, next list full:** the Go code avoids allocation. It
  exchanges the key/value payloads of the hit item and of the back item of
  the next list, then moves both elements to the front of their lists. The
  back item of the next list is thereby demoted one level.
- **Set, list 0 full:** the back item of list 0 is reused for the new key,
  and its old key is evicted.

The project has four layers.

- **`Segments`: the policy on key/value contents alone.** Four segments of
  entries, a lookup `Get` (find, then `Promote`), `Set` and `Remove`. Its
  lemmas state:
  - what a hit does to the hit entry, and how it reshapes the segments;
  - that a promotion only permutes the cache's contents;
  - that it keeps every other entry in its segment and order;
  - that a lookup after an insertion finds the value inserted;
  - what a removal takes out.
- **`CacheState`: the fields of `Cache` as a value (`Store`).**
  - The fields are the per-list capacity, the index `data`, the four lists,
    and the table of `cacheItem`s.
  - A slot id stands for one `cacheItem` together with the list element that
    carries it.
  - `GetStep`, `SetStep` and `RemoveStep` give each method's effect on those
    fields, branch by branch as in `s4lru.go`. Each branch's new state is
    defined once, as `TopState`, `RoomState`, `SwapState`, `PushState`,
    `ReuseState` and `RemoveState`.
  - `Consistent` is the invariant every operation keeps: list bounds, list
    membership agreeing with `lidx`, and an index whose every entry is sound.
  - `Bijective` adds that every listed slot is the one the index gives for
    its key.
- **`Invariants`, `Behaviour`, `Refinement`: properties of the step
  functions.**
  - `Invariants` proves that each step keeps the invariants.
  - `Behaviour` proves what each step does to the key it is given and to the
    others, and how `Len` relates to the lists.
  - `Refinement` maps a `Store` to its segments (`View`). It proves that
    each step, read through `View`, is the corresponding operation of
    `Segments`. For `Set` this holds on every consistent state. For `Get`
    and `Remove` it holds when the index is one to one (`Bijective`); a
    stale item left by `Set` of a cached key can break it, as described
    below. The payload swap is exactly "promote, and demote the back of the
    full list".
- **`S4LRU`: the class `Cache`.** It has the same fields. `Get`, `Set` and
  `Remove` follow the Go statements in order, on the fields. Each is proved
  to produce the state its step function gives. Each is also proved to act
  on the segments as `Segments` says: `Set` always, `Get` and `Remove` when
  the index is one to one.

`Scenario` is a client that replays `TestCache` (s4lru_test.go) against
the class. It proves that every lookup the test checks returns what the
test expects, ending with `foo2` flushed out of the cache.

**Set of a key that is already cached.** The Go code does not look for the
key:
- It pushes a new item onto list 0, or reuses the back of list 0.
- It repoints the index at that item.
- The old element stays in its list with its old value, and no index entry
  refers to it. The one exception is a key whose own element is the back of
  a full list 0: Set reuses that very element, so nothing stale is left and
  the index stays one to one (`Invariants.SetReuseOwnKeeps`).

The model reproduces this exactly, with these consequences:
- `Set` always keeps `Consistent`.
- `Set` keeps `Bijective` when the key was absent.
- The facts tying `Len` to the number of listed items hold under
  `Bijective`.

`Behaviour.StaleComeback` follows one such stale element on a cache built
with `New(4)`:
1. `Set(b, v1)`, `Get(b)`, `Set(b, v2)` leave a stale element for `b` in
   list 1.
2. `Set(a, va)` reuses `b`'s live element, so `b` is evicted.
3. `Get(a)` then swaps payloads with the stale element at the back of
   list 1. This puts `b` back in the index, with the old value `v1`.

## Model

| member | source | states |
|---|---|---|
| S4LRU.Cache.constructor | s4lru.go:33-39 | each list gets capacity total/4; all four lists and the index are empty; Len is 0; the state is the empty Store and is consistent and one to one |
| S4LRU.Cache.Get | s4lru.go:42-85 | the new fields and the result are those of GetStep. A miss returns None and changes nothing. With a one-to-one index, the new segments and the value returned are the policy's Get on the old segments, and the index stays one to one |
| S4LRU.Cache.Set | s4lru.go:88-103 | the new fields are those of SetStep; the new segments are the policy's Set (new entry at the front of segment 0, back of a full segment 0 dropped); consistency is kept; an absent key keeps the index one to one |
| S4LRU.Cache.Len | s4lru.go:106-108 | the number of indexed keys is at most the number of listed items and at most four lists' capacity; with a one-to-one index it equals the number of listed items |
| S4LRU.Cache.Remove | s4lru.go:111-125 | the new fields and the result are those of RemoveStep. A miss returns None and changes nothing. With a one-to-one index, the result and the new segments are the policy's Remove |
| S4LRU.GetSettles | s4lru.go:42-85 | any state and value that GetStep produces are consistent, keep the capacity, leave a miss unchanged, and refine the policy's Get under a one-to-one index |
| S4LRU.SetSettles | s4lru.go:88-103 | the state SetStep produces is consistent, keeps the capacity, and refines the policy's Set; it is one to one when the key was absent |
| S4LRU.RemoveSettles | s4lru.go:111-125 | the state and value RemoveStep produces are consistent, leave a miss unchanged, and refine the policy's Remove under a one-to-one index |
| CacheState.Empty | s4lru.go:33-39 | the state New builds is one to one |
| CacheState.Len | s4lru.go:106-108 | Len is the size of the index, and is zero exactly when no key is indexed; its bounds against the lists are proved in Behaviour.LenBound |
| CacheState.GetStep | s4lru.go:42-85 | The step function of Get. Its branches are TopState (lines 52-55), RoomState (58-63) and SwapState (66-84). Its own contract: a key is found exactly when it is indexed, a hit returns the value stored for it and leaves it indexed, a miss changes nothing, and the capacity is kept. Invariants.GetKeeps, Behaviour.GetOutcome and Refinement.GetStepRefines prove what it keeps, what it does to the key, and that it is the policy's Get |
| CacheState.SetStep | s4lru.go:88-103 | The step function of Set. Its branches are PushState (89-91) and ReuseState (95-102). Its own contract: the key ends indexed to the front slot of list 0, holding an item of level 0 with the key and the value; the capacity is kept. Invariants.SetKeeps, Behaviour.SetOutcome and Refinement.SetStepRefines prove the rest |
| CacheState.RemoveStep | s4lru.go:111-125 | The step function of Remove; its hit branch is RemoveState (118-122). Its own contract: afterwards the key is not indexed; a value is returned exactly when the key was indexed, and it is the stored one; the slot table and capacity are kept. Invariants.RemoveKeeps, Behaviour.RemoveOutcome and Refinement.RemoveStepRefines prove the rest |
| Invariants.EmptyIsBijective | s4lru.go:33-39 | New yields per-list capacity total/4, four empty lists, Len 0, and a one-to-one index |
| Invariants.GetKeeps | s4lru.go:42-85 | Get keeps the invariant, and keeps the index one to one |
| Invariants.GetTopKeeps | s4lru.go:52-55 | moving an item to the front of the top list keeps both invariants |
| Invariants.ReorderKeeps | s4lru.go:53 | reordering one list without changing its members keeps both invariants |
| Invariants.GetRoomKeeps | s4lru.go:58-63 | unlinking the item, raising its level and pushing it onto the next list keeps both invariants |
| Invariants.RoomPreserves | s4lru.go:60-62 | the state after the room path is consistent, and one to one when the state before was |
| Invariants.GetSwapKeeps | s4lru.go:66-84 | the payload swap with the back of the next list keeps both invariants |
| Invariants.GetTakesSwap | s4lru.go:57-84 | a hit below the top with the next list full takes the swap path, with a non-empty next list, and returns the hit key's value |
| Invariants.SwapPreserves | s4lru.go:69-82 | the state after the swap is consistent, and one to one when the state before was |
| Invariants.SwapSameSlots | s4lru.go:81-82 | the swap keeps every list's members and bounds, and the hit item is never the back item it swaps with |
| Invariants.SwapIndexed | s4lru.go:73-78 | after swapping keys and values and repointing both index entries, every index entry is sound |
| Invariants.SwapOwned | s4lru.go:73-78 | with a one-to-one index before the swap, every listed item is owned by its key after it |
| Invariants.SwapRepoints | s4lru.go:73-78 | with a one-to-one index, the swap exchanges the keys of two different slots, points each key's index entry at its new slot, and leaves every other slot's item alone |
| Invariants.SetKeeps | s4lru.go:88-103 | Set keeps the invariant always, and keeps the index one to one when the key was absent |
| Invariants.SetPushKeeps | s4lru.go:89-92 | pushing a new item onto list 0 keeps the invariant, and keeps the index one to one for an absent key |
| Invariants.SetReuseKeeps | s4lru.go:95-102 | reusing the back of list 0 for the new key keeps the invariant, and keeps the index one to one for an absent key |
| Invariants.SetReuseOwnKeeps | s4lru.go:95-102 | Set of a cached key whose own element is the back of a full list 0 reuses that element: the index is unchanged and stays one to one |
| Invariants.RemoveKeeps | s4lru.go:111-125 | Remove keeps the invariant, and keeps the index one to one |
| Invariants.RemoveConsistent | s4lru.go:120-122 | unlinking the item and deleting its key leaves a consistent state |
| Behaviour.GetOutcome | s4lru.go:42-85 | A miss returns None and changes nothing. A hit returns the key's value, and leaves the key in an item at the front of list min(level+1, 3), with that level, the key and the value. With a one-to-one index, Len is unchanged |
| Behaviour.TopHit | s4lru.go:52-55 | a hit on the top list leaves the index and the items alone and puts the key's slot at the front of the top list |
| Behaviour.RoomHit | s4lru.go:58-63 | the room path keeps the key in its slot, now at the front of the next list, with its level raised by one and its value kept; the index is unchanged |
| Behaviour.GetSwapOutcome | s4lru.go:66-84 | On the swap path, no list changes length. The key displaced from the back of the next list ends at the front of the hit key's old list, one level down, with its value. With a one-to-one index that key is never the hit key |
| Behaviour.SwapShape | s4lru.go:81-82 | the swap changes no list's length and puts the hit slot at the front of its own list |
| Behaviour.SwapDemoted | s4lru.go:73-81 | the key from the back of the next list takes over the hit key's slot, at the front of the hit key's list, with its own value; with a one-to-one index it is never the hit key |
| Behaviour.SwapHit | s4lru.go:73-82 | on the swap path the hit key ends in the element that was the back of the next list, now at its front, with its level raised and its value kept |
| Behaviour.SetOutcome | s4lru.go:88-103 | The key ends at the front of list 0 with the given value. With room, the index gains the key. Otherwise, the key of list 0's back item leaves the index. Every other indexed key keeps its item |
| Behaviour.SetAbsentOutcome | s4lru.go:88-103 | For an absent key with a one-to-one index: with room, Len grows by one. With list 0 full, exactly list 0's former back key is evicted, every other key stays, and Len is unchanged |
| Behaviour.SetThenGet | s4lru.go:88-103 | Get right after Set of a key returns the value just set |
| Behaviour.RemoveOutcome | s4lru.go:111-125 | A miss returns None and changes nothing. A hit returns the key's value and drops exactly that key: Len and the number of listed items each fall by one, and every other key keeps its item |
| Behaviour.RemoveHitCounts | s4lru.go:120-122 | unlinking one item and deleting one key lowers both Len and the number of listed items by one |
| Behaviour.LenBound | s4lru.go:106-108 | Len is at most the number of listed items, which is at most four times the per-list capacity; with a one-to-one index Len equals the number of listed items |
| Behaviour.StaleComeback | s4lru.go:88-103 | On a cache from New(4), Set(b), Get(b) and Set(b) again leave b's old item listed. Set(a) then evicts b. Get(a) swaps with b's old item and puts b back in the index with the value of its first Set |
| Refinement.View | s4lru.go:26-30 | the segments read off a consistent state are bounded by the per-list capacity and hold as many entries as the lists hold items |
| Refinement.FindMatchesIndex | s4lru.go:43-49 | with a one-to-one index, a key is found in the segments exactly when the index holds it, at the list and position of its item |
| Refinement.GetStepRefines | s4lru.go:42-85 | with a one-to-one index, GetStep read through the view is the policy's Get: the same new segments and the same value |
| Refinement.GetTopRefines | s4lru.go:52-55 | the top path reads as promotion within the top segment |
| Refinement.GetRoomRefines | s4lru.go:58-64 | the room path reads as promotion into the next segment |
| Refinement.GetSwapRefines | s4lru.go:66-84 | the payload swap reads as promotion into the full next segment, with its back entry demoted to the front of the hit entry's segment |
| Refinement.SwapByPosition | s4lru.go:69-82 | the swap state, written by position: the hit slot goes to the front of its list with its position deleted, and the back slot goes to the front of the next list with the rest in order |
| Refinement.SetStepRefines | s4lru.go:88-103 | SetStep read through the view is the policy's Set, whether or not the key was cached |
| Refinement.RemoveStepRefines | s4lru.go:111-125 | with a one-to-one index, RemoveStep read through the view is the policy's Remove: the same segments and the same value |
| Segments.Up | s4lru.go:6-9 | a hit moves an entry one level up, except at the top level, where it stays |
| Segments.FindIn | s4lru.go:43 | the position found holds the key, no earlier position does, and None means no position holds it |
| Segments.Find | s4lru.go:43 | the location found holds the key, and None means no segment holds it |
| Segments.Promote | s4lru.go:51-84 | a promotion keeps the segments within capacity and keeps the number of entries |
| Segments.PromotePermutes | s4lru.go:51-84 | a promotion neither loses nor invents an entry: the bag of entries is unchanged |
| Segments.PromoteShape | s4lru.go:51-84 | At the top, and into a full segment, no segment changes length, and the full segment's back entry is demoted to the front of the hit entry's segment. With room, one entry moves up and the other segments are untouched |
| Segments.PromoteKeepsOthers | s4lru.go:51-84 | once the hit key and the demoted key are set aside, every segment reads as before, in order |
| Segments.Get | s4lru.go:42-85 | a lookup keeps the segments within capacity and keeps the number of entries |
| Segments.GetOutcome | s4lru.go:42-85 | a miss changes nothing and returns None; a hit returns the entry's value and puts the entry at the front of the next level up (or of the top level) |
| Segments.Set | s4lru.go:88-103 | an insertion keeps the segments within capacity |
| Segments.SetOutcome | s4lru.go:88-103 | The new entry is at the front of segment 0, and the other segments are untouched. With room, the size grows by one and the bag gains the entry. When full, the size is kept and the back of segment 0 is exchanged for the new entry |
| Segments.SetKeepsOthers | s4lru.go:88-103 | an insertion keeps every entry it does not drop in its segment and order |
| Segments.SetThenGet | s4lru.go:88-103 | a lookup right after an insertion finds the value inserted |
| Segments.Remove | s4lru.go:111-125 | a removal keeps four segments |
| Segments.RemoveOutcome | s4lru.go:111-125 | an absent key changes nothing; a present key's value is returned and exactly its entry leaves the bag |
| Segments.RemoveKeepsOthers | s4lru.go:111-125 | a removal keeps every other entry in its segment and order |
| ListOps.RemoveElement | s4lru.go:60 | the list loses exactly the element: one shorter, the elements before it keep their positions and those after it move up by one, no new members, every other member kept, no repeats introduced |
| ListOps.MoveToFront | s4lru.go:53 | the list keeps its members and length, and the element becomes the front |
| ListOps.BackIndex | s4lru.go:69 | in a list without repeats the back element is at the last position |
| Scenario.TestCache | s4lru_test.go:10-49 | the test's checks hold: a miss on the empty cache; foo1 reads back bar1; foo2 reads bar2 after the promotions; foo1 misses after its removal; foo2 misses after four new keys are each stored and read four times |
| Scenario.Opening | s4lru_test.go:10-20 | the first lookup misses; foo1 is stored and reads back its value; foo1 ends on list 1 |
| Scenario.Promotions | s4lru_test.go:22-29 | foo2 is stored; foo1 and foo2 exchange places by payload swaps; the last lookup returns foo2's value, with foo2 on list 2 and foo1 on list 0 |
| Scenario.Removal | s4lru_test.go:31-35 | after foo1 is removed, its lookup misses |
| Scenario.Flush | s4lru_test.go:37-45 | after the four rounds, each list holds exactly one of extra0..extra3 and foo2 is gone |
| Scenario.SetAndRead | s4lru_test.go:39-44 | one round of the flushing loop: storing a new key and reading it a given number of times passes through the expected states |
| Scenario.OpeningTrace | s4lru_test.go:10-20 | the segments the opening steps pass through, and the values they return |
| Scenario.PromotionsTrace | s4lru_test.go:22-29 | the segments the promotion steps pass through, and the value the last lookup returns |
| Scenario.RemovalTrace | s4lru_test.go:31-35 | the removal empties segment 0, and the lookup that follows misses |
| Scenario.RoundRoomSwapRoom | s4lru_test.go:38-44 | round extra0: stored at list 0, then room, swap and room take it to the top |
| Scenario.RoundSwapRoomSwap | s4lru_test.go:38-44 | round extra1: swap, room and swap take it to the top |
| Scenario.RoundEvictRoomSwapSwap | s4lru_test.go:38-44 | round extra2: storing it evicts foo2 from list 0; room, swap and swap take it to the top |
| Scenario.RoundSwapSwapSwap | s4lru_test.go:38-44 | round extra3: three swaps take it to the top, and each list ends with one extra key |

## Left out

- `container/list` internals are modelled as sequences of slot ids, front
  first. An element and the `cacheItem` it carries share one slot id.
- Pointer aliasing between the index, the lists and the `cacheItem`s is
  modelled by a table from slot ids to items. The swap path's in-place
  update of two items is an update of two table entries.
- S4LRU.Cache.Get: on the room path Go's `PushFront` wraps the same
  `cacheItem` in a new `list.Element`. The model keeps the slot id, so the
  change of element identity is not captured.
- Slot-table entries are never freed. The items that Remove unlinks become
  garbage in Go; the model keeps them in the table, unlisted, and no index
  entry refers to them. (The element that Get's room path drops has no
  slot of its own; see the `S4LRU.Cache.Get` line above.) The stale item of
  Set on a cached key is different: it stays listed, as in Go, and a later
  reuse or swap can index it again.
- `interface{}` values are a type parameter `V`. The `(value, bool)` result
  pair of Get and Remove is `Option<V>`.
- S4LRU.Cache.constructor: the total capacity is a `nat`. Go's `New`
  accepts a negative capacity, and `capacity / 4` then truncates toward
  zero. That case is not modelled.
- S4LRU.Cache.Set: requires a positive per-list capacity. With capacity 0,
  Go's `Set` finds no back element in the empty list 0 and dereferences
  nil.
- S4LRU.Cache.Len: stated only for a consistent cache. The bound
  `Len() <= total listed items` needs the invariant.
- Go map hashing and iteration order: the index is a Dafny `map`, and no
  operation iterates over it.
- Concurrency: the type is documented as not safe for concurrent access.
  The model is sequential.
- The test's `t.Errorf` reporting: the checks become postconditions of
  `Scenario.TestCache`.
- The test's outer loop is unrolled into four rounds, and the inner loop is
  kept in `Scenario.SetAndRead`.
- The test's `fmt.Sprintf("extra%d", i)` keys are written as the strings
  they produce.
