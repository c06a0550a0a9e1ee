/** The `sort({ createdAt: -1 })` both list routes apply: newest first. The database leaves
    the order of equal timestamps open; this model keeps them in storage order. */
module NewestFirst {

  /** Non-increasing by the key. */
  ghost predicate SortedNewestFirst<T>(xs: seq<T>, key: T -> int) {
    forall i, j :: 0 <= i < j < |xs| ==> key(xs[i]) >= key(xs[j])
  }

  /** Put `x` before the first element that is not newer than it. */
  function Insert<T>(x: T, xs: seq<T>, key: T -> int): (r: seq<T>)
    requires SortedNewestFirst(xs, key)
    ensures SortedNewestFirst(r, key)
    ensures multiset(r) == multiset(xs) + multiset{x}
    ensures |r| == |xs| + 1
  {
    if xs == [] || key(x) >= key(xs[0]) then [x] + xs
    else
      var rest := Insert(x, xs[1..], key);
      assert xs == [xs[0]] + xs[1..];
      NoneNewerThanHead(x, xs, rest, key);
      [xs[0]] + rest
  }

  /** What `Insert` places after the head of a sorted list is no newer than that head. */
  lemma NoneNewerThanHead<T>(x: T, xs: seq<T>, rest: seq<T>, key: T -> int)
    requires xs != [] && SortedNewestFirst(xs, key) && key(x) < key(xs[0])
    requires multiset(rest) == multiset(xs[1..]) + multiset{x}
    ensures forall k :: 0 <= k < |rest| ==> key(rest[k]) <= key(xs[0])
  {
    forall k | 0 <= k < |rest|
      ensures key(rest[k]) <= key(xs[0])
    {
      assert rest[k] in multiset(rest);
      if rest[k] != x {
        assert rest[k] in multiset(xs[1..]);
        var m :| 0 <= m < |xs[1..]| && xs[1..][m] == rest[k];
        assert xs[m + 1] == rest[k];
      }
    }
  }

  /** The records newest first: a permutation of the input, sorted by the key. */
  function SortNewestFirst<T>(xs: seq<T>, key: T -> int): (r: seq<T>)
    ensures SortedNewestFirst(r, key)
    ensures multiset(r) == multiset(xs)
    ensures |r| == |xs|
  {
    if xs == [] then []
    else
      assert xs == [xs[0]] + xs[1..];
      Insert(xs[0], SortNewestFirst(xs[1..], key), key)
  }
}
