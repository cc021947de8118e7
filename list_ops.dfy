/**
 * The doubly linked lists of Go's container/list, seen as sequences of
 * element handles with index 0 at the front. Only the operations the cache
 * uses are given: PushFront (a sequence prepend), Remove, MoveToFront and Back.
 */
module ListOps {

  /** No handle occurs twice: a list element belongs to its list once. */
  predicate Distinct<T(==)>(s: seq<T>) {
    forall p, q | 0 <= p < q < |s| :: s[p] != s[q]
  }

  /** The last element, list.Back(). */
  function Back<T>(s: seq<T>): T
    requires |s| > 0
  {
    s[|s| - 1]
  }

  /** Position of the first occurrence of `x`. */
  function IndexOf<T(==)>(s: seq<T>, x: T): (p: nat)
    requires x in s
    ensures p < |s| && s[p] == x
    ensures forall q | 0 <= q < p :: s[q] != x
  {
    if s[0] == x then 0 else IndexOf(s[1..], x) + 1
  }

  /** The sequence without its element at position `p`. */
  function DeleteAt<T>(s: seq<T>, p: nat): (r: seq<T>)
    requires p < |s|
    ensures |r| == |s| - 1
    ensures forall q | 0 <= q < |r| :: r[q] == if q < p then s[q] else s[q + 1]
  {
    s[..p] + s[p + 1..]
  }

  /** Deleting a position takes exactly that element out of the multiset. */
  lemma DeleteAtMultiset<T>(s: seq<T>, p: nat)
    requires p < |s|
    ensures multiset(DeleteAt(s, p)) + multiset{s[p]} == multiset(s)
  {
    assert s == s[..p] + [s[p]] + s[p + 1..];
  }

  /** Dropping the back takes exactly that element out of the multiset. */
  lemma InitMultiset<T>(s: seq<T>)
    requires |s| > 0
    ensures multiset(s[..|s| - 1]) + multiset{Back(s)} == multiset(s)
  {
    assert s == s[..|s| - 1] + [Back(s)];
  }

  /**
   * list.Remove: unlink element `x`; no other element is lost, and the
   * others keep their order: those before `x` keep their positions and
   * those after it move up by one.
   */
  function RemoveElement<T(==)>(s: seq<T>, x: T): (r: seq<T>)
    requires x in s
    ensures |r| == |s| - 1
    ensures forall q | 0 <= q < |r| :: r[q] == if q < IndexOf(s, x) then s[q] else s[q + 1]
    ensures forall y | y in r :: y in s
    ensures forall y | y in s && y != x :: y in r
    ensures Distinct(s) ==> Distinct(r) && x !in r
  {
    var p := IndexOf(s, x);
    DeleteAtMembers(s, p);
    DeleteAt(s, p)
  }

  /** Deleting a position keeps every other element, adds none, and keeps a list free of repeats. */
  lemma DeleteAtMembers<T>(s: seq<T>, p: nat)
    requires p < |s|
    ensures forall y | y in DeleteAt(s, p) :: y in s
    ensures forall y | y in s && y != s[p] :: y in DeleteAt(s, p)
    ensures Distinct(s) ==> Distinct(DeleteAt(s, p)) && s[p] !in DeleteAt(s, p)
  {
    var r := DeleteAt(s, p);
    forall y | y in s && y != s[p] ensures y in r {
      var q :| 0 <= q < |s| && s[q] == y;
      if q < p { assert r[q] == y; } else { assert r[q - 1] == y; }
    }
  }

  /** list.MoveToFront: the list keeps its elements and `x` becomes the front. */
  function MoveToFront<T(==)>(s: seq<T>, x: T): (r: seq<T>)
    requires x in s
    ensures |r| == |s| && r[0] == x
    ensures forall y | y in r :: y in s
    ensures forall y | y in s :: y in r
    ensures Distinct(s) ==> Distinct(r)
  {
    [x] + RemoveElement(s, x)
  }

  /** A one-element list loses its element to Remove and keeps it under MoveToFront. */
  lemma Singleton<T>(x: T)
    ensures RemoveElement([x], x) == [] && MoveToFront([x], x) == [x]
  {
    assert IndexOf([x], x) == 0;
  }

  /** In a list without repeats each element is found at its own position. */
  lemma DistinctIndex<T>(s: seq<T>, q: nat)
    requires q < |s| && Distinct(s)
    ensures IndexOf(s, s[q]) == q
  {
  }

  /** In a list without repeats the back element is found at the last position. */
  lemma BackIndex<T>(s: seq<T>)
    requires |s| > 0 && Distinct(s)
    ensures IndexOf(s, Back(s)) == |s| - 1
  {
  }
}
