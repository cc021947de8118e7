/**
 * The S4LRU policy itself, stated on the key/value contents of the four
 * segments and nothing else: no list elements, no index, no payload swap.
 * Level 0 is the coldest segment and level 3 the hottest; in each segment
 * index 0 is the front (most recently inserted or promoted) and the last
 * position is the back (next to be demoted or evicted).
 *
 * This is the reference the slot-level cache is proved to refine (Set on
 * every consistent state; Get and Remove when its index and lists
 * correspond one to one): a hit at level i < 3 with a full segment i+1 is
 * "remove from i, push onto the front of i+1, move the back of i+1 to the
 * front of i".
 */
module Segments {
  import opened Wrappers
  import opened ListOps

  /** The number of segments. */
  const Levels: nat := 4
  /** The hottest level. */
  const Top: nat := Levels - 1

  datatype Entry<V> = Entry(key: string, value: V)

  /** Where an entry sits: its segment and its position from the front. */
  datatype Loc = Loc(level: nat, pos: nat)

  type Segs<V> = seq<seq<Entry<V>>>

  /** Four segments, none longer than the per-segment capacity. */
  ghost predicate Bounded<V>(segs: Segs<V>, cap: nat) {
    |segs| == Levels && forall i | 0 <= i < Levels :: |segs[i]| <= cap
  }

  predicate At<V>(segs: Segs<V>, k: string, loc: Loc) {
    loc.level < |segs| && loc.pos < |segs[loc.level]| && segs[loc.level][loc.pos].key == k
  }

  /** The level a hit moves an entry to: one up, or staying at the top. */
  function Up(level: nat): (u: nat)
    requires level < Levels
    ensures u < Levels
    ensures u == level || u == level + 1
    ensures u == level <==> level == Top
  {
    if level < Top then level + 1 else Top
  }

  /** Total number of entries. */
  function Size<V>(segs: Segs<V>): nat
    requires |segs| == Levels
  {
    |segs[0]| + |segs[1]| + |segs[2]| + |segs[3]|
  }

  /** All entries of the four segments, with their multiplicities. */
  ghost function Bag<V>(segs: Segs<V>): multiset<Entry<V>>
    requires |segs| == Levels
  {
    multiset(segs[0]) + multiset(segs[1]) + multiset(segs[2]) + multiset(segs[3])
  }

  /** First position in `seg` holding key `k`. */
  function FindIn<V>(seg: seq<Entry<V>>, k: string): (r: Option<nat>)
    ensures r.Some? ==> r.value < |seg| && seg[r.value].key == k
    ensures r.Some? ==> forall q | 0 <= q < r.value :: seg[q].key != k
    ensures r.None? ==> forall q | 0 <= q < |seg| :: seg[q].key != k
  {
    if seg == [] then None
    else if seg[0].key == k then Some(0)
    else match FindIn(seg[1..], k)
      case None => None
      case Some(p) => Some(p + 1)
  }

  /** First location of key `k` at level `level` or above, scanning cold to hot. */
  function FindFrom<V>(segs: Segs<V>, k: string, level: nat): (r: Option<Loc>)
    decreases |segs| - level
    ensures r.Some? ==> level <= r.value.level && At(segs, k, r.value)
    ensures r.None? ==> forall l, q | level <= l < |segs| && 0 <= q < |segs[l]| :: segs[l][q].key != k
  {
    if level >= |segs| then None
    else match FindIn(segs[level], k)
      case Some(p) => Some(Loc(level, p))
      case None => FindFrom(segs, k, level + 1)
  }

  /** Where key `k` is held, if anywhere. */
  function Find<V>(segs: Segs<V>, k: string): (r: Option<Loc>)
    ensures r.Some? ==> At(segs, k, r.value)
    ensures r.None? ==> forall l, q | 0 <= l < |segs| && 0 <= q < |segs[l]| :: segs[l][q].key != k
  {
    FindFrom(segs, k, 0)
  }

  /**
   * The effect of a hit on the entry at `loc`: at the top it moves to the
   * front of its own segment; otherwise it moves to the front of the next
   * segment, and when that one is full its back entry is demoted to the
   * front of the hit entry's old segment.
   */
  function Promote<V>(segs: Segs<V>, cap: nat, loc: Loc): (r: Segs<V>)
    requires Bounded(segs, cap) && loc.level < Levels && loc.pos < |segs[loc.level]|
    ensures Bounded(r, cap)
    ensures Size(r) == Size(segs)
  {
    var l, e := loc.level, segs[loc.level][loc.pos];
    var rest := DeleteAt(segs[l], loc.pos);
    if l == Top then
      segs[l := [e] + rest]
    else if |segs[l + 1]| < cap then
      segs[l := rest][l + 1 := [e] + segs[l + 1]]
    else
      var n := |segs[l + 1]|;
      segs[l := [Back(segs[l + 1])] + rest][l + 1 := [e] + segs[l + 1][..n - 1]]
  }

  /** Two segment lists that differ only at levels `l` and `l + 1`, with the same entries there, have one bag. */
  lemma BagOfNeighbours<V>(a: Segs<V>, b: Segs<V>, l: nat)
    requires |a| == Levels && |b| == Levels && l < Top
    requires forall j | 0 <= j < Levels && j != l && j != l + 1 :: a[j] == b[j]
    requires multiset(a[l]) + multiset(a[l + 1]) == multiset(b[l]) + multiset(b[l + 1])
    ensures Bag(a) == Bag(b)
  {
    forall x ensures Bag(a)[x] == Bag(b)[x] {
      assert multiset(a[l])[x] + multiset(a[l + 1])[x] == multiset(b[l])[x] + multiset(b[l + 1])[x] by {
        assert (multiset(a[l]) + multiset(a[l + 1]))[x] == (multiset(b[l]) + multiset(b[l + 1]))[x];
      }
      if l == 0 {
        assert a[2] == b[2] && a[3] == b[3];
      } else if l == 1 {
        assert a[0] == b[0] && a[3] == b[3];
      } else {
        assert a[0] == b[0] && a[1] == b[1];
      }
    }
  }

  /** Exchanging `e` out of one segment and `b` out of the other, each onto the other's front, keeps the entries. */
  lemma ExchangeMultiset<V>(a: seq<Entry<V>>, a': seq<Entry<V>>, b: seq<Entry<V>>, b': seq<Entry<V>>, x: Entry<V>, y: Entry<V>)
    requires multiset(a') + multiset{x} == multiset(a)
    requires multiset(b') + multiset{y} == multiset(b)
    ensures multiset([y] + a') + multiset([x] + b') == multiset(a) + multiset(b)
  {
    assert multiset([y] + a') == multiset{y} + multiset(a');
    assert multiset([x] + b') == multiset{x} + multiset(b');
  }

  /** A promotion neither loses nor invents an entry: it permutes the cache's contents. */
  lemma PromotePermutes<V>(segs: Segs<V>, cap: nat, loc: Loc)
    requires Bounded(segs, cap) && loc.level < Levels && loc.pos < |segs[loc.level]|
    ensures Bag(Promote(segs, cap, loc)) == Bag(segs)
  {
    var l := loc.level;
    var rest := DeleteAt(segs[l], loc.pos);
    DeleteAtMultiset(segs[l], loc.pos);
    if l == Top {
      TopPermutes(segs, cap, loc, rest);
    } else if |segs[l + 1]| < cap {
      RoomPermutes(segs, cap, loc, rest);
    } else {
      SwapPermutes(segs, cap, loc, rest);
    }
  }

  lemma TopPermutes<V>(segs: Segs<V>, cap: nat, loc: Loc, rest: seq<Entry<V>>)
    requires Bounded(segs, cap) && loc.level == Top && loc.pos < |segs[loc.level]|
    requires rest == DeleteAt(segs[Top], loc.pos)
    requires multiset(rest) + multiset{segs[Top][loc.pos]} == multiset(segs[Top])
    ensures Bag(Promote(segs, cap, loc)) == Bag(segs)
  {
    var r := segs[Top := [segs[Top][loc.pos]] + rest];
    assert Promote(segs, cap, loc) == r;
    assert multiset(r[Top]) == multiset(segs[Top]);
    assert r[0] == segs[0] && r[1] == segs[1] && r[2] == segs[2];
  }

  lemma RoomPermutes<V>(segs: Segs<V>, cap: nat, loc: Loc, rest: seq<Entry<V>>)
    requires Bounded(segs, cap) && loc.level < Top && loc.pos < |segs[loc.level]|
    requires |segs[loc.level + 1]| < cap
    requires rest == DeleteAt(segs[loc.level], loc.pos)
    requires multiset(rest) + multiset{segs[loc.level][loc.pos]} == multiset(segs[loc.level])
    ensures Bag(Promote(segs, cap, loc)) == Bag(segs)
  {
    var l, e := loc.level, segs[loc.level][loc.pos];
    var r := segs[l := rest][l + 1 := [e] + segs[l + 1]];
    assert Promote(segs, cap, loc) == r;
    assert multiset(r[l + 1]) == multiset{e} + multiset(segs[l + 1]);
    BagOfNeighbours(r, segs, l);
  }

  lemma SwapPermutes<V>(segs: Segs<V>, cap: nat, loc: Loc, rest: seq<Entry<V>>)
    requires Bounded(segs, cap) && loc.level < Top && loc.pos < |segs[loc.level]|
    requires |segs[loc.level + 1]| >= cap
    requires rest == DeleteAt(segs[loc.level], loc.pos)
    requires multiset(rest) + multiset{segs[loc.level][loc.pos]} == multiset(segs[loc.level])
    ensures Bag(Promote(segs, cap, loc)) == Bag(segs)
  {
    var l, e := loc.level, segs[loc.level][loc.pos];
    var n := |segs[l + 1]|;
    var r := segs[l := [Back(segs[l + 1])] + rest][l + 1 := [e] + segs[l + 1][..n - 1]];
    assert Promote(segs, cap, loc) == r;
    InitMultiset(segs[l + 1]);
    ExchangeMultiset(segs[l], rest, segs[l + 1], segs[l + 1][..n - 1], e, Back(segs[l + 1]));
    BagOfNeighbours(r, segs, l);
  }

  /** A lookup: a hit promotes the entry found and returns its value; a miss changes nothing. */
  function Get<V>(segs: Segs<V>, cap: nat, k: string): (r: (Segs<V>, Option<V>))
    requires Bounded(segs, cap)
    ensures Bounded(r.0, cap)
    ensures Size(r.0) == Size(segs)
  {
    match Find(segs, k)
    case None => (segs, None)
    case Some(loc) => (Promote(segs, cap, loc), Some(segs[loc.level][loc.pos].value))
  }

  /**
   * An insertion: the new entry goes to the front of segment 0; when
   * segment 0 is full its back entry leaves the cache.
   */
  function Set<V>(segs: Segs<V>, cap: nat, k: string, v: V): (r: Segs<V>)
    requires Bounded(segs, cap) && cap > 0
    ensures Bounded(r, cap)
  {
    var e := Entry(k, v);
    if |segs[0]| < cap then segs[0 := [e] + segs[0]]
    else segs[0 := [e] + segs[0][..|segs[0]| - 1]]
  }

  /** A removal: the entry found leaves its segment; nothing else moves. */
  function Remove<V>(segs: Segs<V>, k: string): (r: (Segs<V>, Option<V>))
    requires |segs| == Levels
    ensures |r.0| == Levels
  {
    match Find(segs, k)
    case None => (segs, None)
    case Some(loc) => (segs[loc.level := DeleteAt(segs[loc.level], loc.pos)], Some(segs[loc.level][loc.pos].value))
  }

  /** The entries of `seg` whose key is not in `gone`, in their order. */
  function Except<V>(seg: seq<Entry<V>>, gone: set<string>): (r: seq<Entry<V>>)
    ensures |r| <= |seg|
  {
    if seg == [] then []
    else (if seg[0].key in gone then [] else [seg[0]]) + Except(seg[1..], gone)
  }

  lemma {:induction false} ExceptAppend<V>(a: seq<Entry<V>>, b: seq<Entry<V>>, gone: set<string>)
    ensures Except(a + b, gone) == Except(a, gone) + Except(b, gone)
  {
    if a == [] {
      assert a + b == b;
    } else {
      assert (a + b)[0] == a[0];
      assert (a + b)[1..] == a[1..] + b;
      ExceptAppend(a[1..], b, gone);
    }
  }

  lemma ExceptDeleteAt<V>(s: seq<Entry<V>>, p: nat, gone: set<string>)
    requires p < |s| && s[p].key in gone
    ensures Except(DeleteAt(s, p), gone) == Except(s, gone)
  {
    assert s == s[..p] + ([s[p]] + s[p + 1..]);
    ExceptAppend(s[..p], [s[p]] + s[p + 1..], gone);
    ExceptAppend(s[..p], s[p + 1..], gone);
    assert ([s[p]] + s[p + 1..])[1..] == s[p + 1..];
  }

  lemma ExceptInit<V>(s: seq<Entry<V>>, gone: set<string>)
    requires |s| > 0 && Back(s).key in gone
    ensures Except(s[..|s| - 1], gone) == Except(s, gone)
  {
    assert s == s[..|s| - 1] + [Back(s)];
    ExceptAppend(s[..|s| - 1], [Back(s)], gone);
  }

  /**
   * What a hit does to the hit entry: the value returned is its value and
   * it ends at the front of the next level up (or of the top level). A miss
   * returns nothing and changes nothing.
   */
  lemma GetOutcome<V>(segs: Segs<V>, cap: nat, k: string)
    requires Bounded(segs, cap)
    ensures Find(segs, k).None? ==> Get(segs, cap, k) == (segs, None)
    ensures Find(segs, k).Some? ==>
      var loc := Find(segs, k).value;
      var r := Get(segs, cap, k);
      && r.1 == Some(segs[loc.level][loc.pos].value)
      && |r.0[Up(loc.level)]| > 0
      && r.0[Up(loc.level)][0] == segs[loc.level][loc.pos]
  {
  }

  /**
   * How a promotion changes the segment lengths. At the top level, and in
   * the full-segment case, no length changes and the back of the full
   * segment is demoted to the front of the hit entry's segment; with room
   * above, one entry moves up.
   */
  lemma PromoteShape<V>(segs: Segs<V>, cap: nat, loc: Loc)
    requires Bounded(segs, cap) && loc.level < Levels && loc.pos < |segs[loc.level]|
    ensures var r, l := Promote(segs, cap, loc), loc.level;
      if l == Top || |segs[l + 1]| == cap then
        && (forall j | 0 <= j < Levels :: |r[j]| == |segs[j]|)
        && (l < Top ==> r[l][0] == Back(segs[l + 1]))
      else
        && |r[l]| == |segs[l]| - 1 && |r[l + 1]| == |segs[l + 1]| + 1
        && (forall j | 0 <= j < Levels && j != l && j != l + 1 :: r[j] == segs[j])
  {
  }

  /**
   * A promotion keeps every other entry in its segment and in its order:
   * once the hit key (and, when a full segment is entered, the demoted key)
   * are set aside, each segment reads as before.
   */
  lemma PromoteKeepsOthers<V>(segs: Segs<V>, cap: nat, loc: Loc, gone: set<string>)
    requires Bounded(segs, cap) && loc.level < Levels && loc.pos < |segs[loc.level]|
    requires segs[loc.level][loc.pos].key in gone
    requires loc.level < Top && |segs[loc.level + 1]| == cap ==> Back(segs[loc.level + 1]).key in gone
    ensures forall j | 0 <= j < Levels :: Except(Promote(segs, cap, loc)[j], gone) == Except(segs[j], gone)
  {
    var l, e := loc.level, segs[loc.level][loc.pos];
    var rest := DeleteAt(segs[l], loc.pos);
    ExceptDeleteAt(segs[l], loc.pos, gone);
    ExceptDropped(e, rest, gone);
    if l == Top {
      assert Promote(segs, cap, loc) == segs[l := [e] + rest];
    } else if |segs[l + 1]| < cap {
      assert Promote(segs, cap, loc) == segs[l := rest][l + 1 := [e] + segs[l + 1]];
      ExceptDropped(e, segs[l + 1], gone);
    } else {
      var n := |segs[l + 1]|;
      var b := Back(segs[l + 1]);
      assert Promote(segs, cap, loc) == segs[l := [b] + rest][l + 1 := [e] + segs[l + 1][..n - 1]];
      ExceptInit(segs[l + 1], gone);
      ExceptDropped(b, rest, gone);
      ExceptDropped(e, segs[l + 1][..n - 1], gone);
    }
  }

  /** An entry whose key is set aside does not show once set-aside keys are dropped. */
  lemma ExceptDropped<V>(e: Entry<V>, s: seq<Entry<V>>, gone: set<string>)
    requires e.key in gone
    ensures Except([e] + s, gone) == Except(s, gone)
  {
    assert ([e] + s)[1..] == s;
  }

  /**
   * An insertion puts the new entry at the front of segment 0 and leaves
   * the other segments alone; when segment 0 was full exactly its back
   * entry is dropped and the size is unchanged, otherwise the size grows
   * by one.
   */
  lemma SetOutcome<V>(segs: Segs<V>, cap: nat, k: string, v: V)
    requires Bounded(segs, cap) && cap > 0
    ensures var r := Set(segs, cap, k, v);
      && r[0][0] == Entry(k, v)
      && (forall j | 1 <= j < Levels :: r[j] == segs[j])
      && (|segs[0]| < cap ==> Size(r) == Size(segs) + 1 && Bag(r) == Bag(segs) + multiset{Entry(k, v)})
      && (|segs[0]| == cap ==>
            Size(r) == Size(segs) && Bag(r) + multiset{Back(segs[0])} == Bag(segs) + multiset{Entry(k, v)})
  {
    if |segs[0]| == cap {
      InitMultiset(segs[0]);
    }
  }

  /** An insertion keeps every entry it does not drop in its segment and order. */
  lemma SetKeepsOthers<V>(segs: Segs<V>, cap: nat, k: string, v: V, gone: set<string>)
    requires Bounded(segs, cap) && cap > 0 && k in gone
    requires |segs[0]| == cap ==> Back(segs[0]).key in gone
    ensures forall j | 0 <= j < Levels :: Except(Set(segs, cap, k, v)[j], gone) == Except(segs[j], gone)
  {
    if |segs[0]| == cap {
      ExceptInit(segs[0], gone);
    }
  }

  /** Round trip: a lookup right after an insertion finds the value inserted. */
  lemma SetThenGet<V>(segs: Segs<V>, cap: nat, k: string, v: V)
    requires Bounded(segs, cap) && cap > 0
    ensures Get(Set(segs, cap, k, v), cap, k).1 == Some(v)
  {
    var r := Set(segs, cap, k, v);
    assert FindIn(r[0], k) == Some(0);
  }

  /**
   * A removal of a present key returns its value and takes exactly that
   * entry out; a removal of an absent key changes nothing.
   */
  lemma RemoveOutcome<V>(segs: Segs<V>, k: string)
    requires |segs| == Levels
    ensures Find(segs, k).None? ==> Remove(segs, k) == (segs, None)
    ensures Find(segs, k).Some? ==>
      var loc, r := Find(segs, k).value, Remove(segs, k);
      && r.1 == Some(segs[loc.level][loc.pos].value)
      && Size(r.0) == Size(segs) - 1
      && Bag(r.0) + multiset{segs[loc.level][loc.pos]} == Bag(segs)
  {
    if Find(segs, k).Some? {
      var loc := Find(segs, k).value;
      DeleteAtMultiset(segs[loc.level], loc.pos);
    }
  }

  /** A removal keeps every other entry in its segment and order. */
  lemma RemoveKeepsOthers<V>(segs: Segs<V>, k: string, gone: set<string>)
    requires |segs| == Levels && k in gone
    ensures forall j | 0 <= j < Levels :: Except(Remove(segs, k).0[j], gone) == Except(segs[j], gone)
  {
    match Find(segs, k)
    case None =>
    case Some(loc) => ExceptDeleteAt(segs[loc.level], loc.pos, gone);
  }
}
