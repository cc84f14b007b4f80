/** A stable sort by an integer rank (Go's sort.SliceStable), with what it guarantees. */
module RankSort {

  function Place<T>(rank: T -> int, x: T, s: seq<T>): (r: seq<T>)
    ensures |r| == |s| + 1 && multiset(r) == multiset{x} + multiset(s)
  {
    if s == [] || rank(x) <= rank(s[0]) then [x] + s
    else
      assert s == [s[0]] + s[1..];
      [s[0]] + Place(rank, x, s[1..])
  }

  /** The stable sort of `s[i..]` by an integer rank. */
  function SortFrom<T>(rank: T -> int, s: seq<T>, i: nat): (r: seq<T>)
    requires i <= |s|
    ensures |r| == |s| - i
    decreases |s| - i
  {
    if i == |s| then [] else Place(rank, s[i], SortFrom(rank, s, i + 1))
  }

  lemma {:induction false} SortPermutes<T>(rank: T -> int, s: seq<T>, i: nat)
    requires i <= |s|
    ensures multiset(SortFrom(rank, s, i)) == multiset(s[i..])
    decreases |s| - i
  {
    if i < |s| {
      SortPermutes(rank, s, i + 1);
      assert s[i..] == [s[i]] + s[i + 1..];
    }
  }

  ghost predicate Ranked<T>(rank: T -> int, s: seq<T>) {
    forall i, j :: 0 <= i < j < |s| ==> rank(s[i]) <= rank(s[j])
  }

  lemma PlaceAfter<T>(rank: T -> int, x: T, s: seq<T>, v: int)
    requires v <= rank(x) && forall i :: 0 <= i < |s| ==> v <= rank(s[i])
    ensures forall i :: 0 <= i <= |s| ==> v <= rank(Place(rank, x, s)[i])
  {
    var t := Place(rank, x, s);
    forall i | 0 <= i < |t| ensures v <= rank(t[i]) {
      assert t[i] in multiset(t);
      assert t[i] == x || t[i] in multiset(s);
    }
  }

  lemma {:induction false} PlaceRanked<T>(rank: T -> int, x: T, s: seq<T>)
    requires Ranked(rank, s)
    ensures Ranked(rank, Place(rank, x, s))
  {
    if s != [] && rank(x) > rank(s[0]) {
      PlaceRanked(rank, x, s[1..]);
      PlaceAfter(rank, x, s[1..], rank(s[0]));
    }
  }

  lemma {:induction false} SortRanked<T>(rank: T -> int, s: seq<T>, i: nat)
    requires i <= |s|
    ensures Ranked(rank, SortFrom(rank, s, i))
    decreases |s| - i
  {
    if i < |s| {
      SortRanked(rank, s, i + 1);
      PlaceRanked(rank, s[i], SortFrom(rank, s, i + 1));
    }
  }

  /** The elements of rank `v`, in their order. */
  function OfRank<T>(rank: T -> int, v: int, s: seq<T>, i: nat): seq<T>
    requires i <= |s|
    decreases |s| - i
  {
    if i == |s| then []
    else if rank(s[i]) == v then [s[i]] + OfRank(rank, v, s, i + 1)
    else OfRank(rank, v, s, i + 1)
  }

  lemma {:induction false} OfRankShift<T>(rank: T -> int, v: int, x: T, s: seq<T>, i: nat)
    requires i <= |s|
    ensures OfRank(rank, v, [x] + s, i + 1) == OfRank(rank, v, s, i)
    decreases |s| - i
  {
    if i < |s| {
      OfRankShift(rank, v, x, s, i + 1);
      assert ([x] + s)[i + 1] == s[i];
    }
  }

  lemma OfRankCons<T>(rank: T -> int, v: int, x: T, s: seq<T>)
    ensures OfRank(rank, v, [x] + s, 0) == if rank(x) == v then [x] + OfRank(rank, v, s, 0) else OfRank(rank, v, s, 0)
  {
    OfRankShift(rank, v, x, s, 0);
  }

  lemma {:induction false} PlaceStable<T>(rank: T -> int, x: T, s: seq<T>, v: int)
    ensures OfRank(rank, v, Place(rank, x, s), 0)
         == if rank(x) == v then [x] + OfRank(rank, v, s, 0) else OfRank(rank, v, s, 0)
  {
    if s == [] || rank(x) <= rank(s[0]) {
      OfRankCons(rank, v, x, s);
    } else {
      var head, rest := s[0], s[1..];
      var t := Place(rank, x, rest);
      PlaceStable(rank, x, rest, v);
      assert Place(rank, x, s) == [head] + t;
      OfRankCons(rank, v, head, t);
      OfRankCons(rank, v, head, rest);
      assert s == [head] + rest;
    }
  }

  lemma StableStep<T>(rank: T -> int, s: seq<T>, i: nat, v: int, rest: seq<T>, equals: seq<T>)
    requires i < |s| && rest == SortFrom(rank, s, i + 1) && equals == OfRank(rank, v, s, i + 1)
    requires OfRank(rank, v, rest, 0) == equals
    ensures OfRank(rank, v, SortFrom(rank, s, i), 0) == OfRank(rank, v, s, i)
  {
    PlaceStable(rank, s[i], rest, v);
    assert SortFrom(rank, s, i) == Place(rank, s[i], rest);
    assert OfRank(rank, v, s, i) == if rank(s[i]) == v then [s[i]] + equals else equals;
  }

  /** The sort keeps the order of equally ranked elements. */
  lemma {:induction false} SortStable<T>(rank: T -> int, s: seq<T>, i: nat, v: int)
    requires i <= |s|
    ensures OfRank(rank, v, SortFrom(rank, s, i), 0) == OfRank(rank, v, s, i)
    decreases |s| - i
  {
    if i < |s| {
      SortStable(rank, s, i + 1, v);
      StableStep(rank, s, i, v, SortFrom(rank, s, i + 1), OfRank(rank, v, s, i + 1));
    }
  }

  lemma PlaceHead<T>(rank: T -> int, x: T, s: seq<T>)
    requires s != []
    ensures Place(rank, x, s)[0] == if rank(x) <= rank(s[0]) then x else s[0]
  {
  }

  /** The position of the first element of least rank in `s[i..]`. */
  function LeastFrom<T>(rank: T -> int, s: seq<T>, i: nat): (k: nat)
    requires i < |s|
    ensures i <= k < |s|
    ensures forall j :: i <= j < k ==> rank(s[j]) > rank(s[k])
    ensures forall j :: k < j < |s| ==> rank(s[j]) >= rank(s[k])
    decreases |s| - i
  {
    if i + 1 == |s| then i
    else
      var m := LeastFrom(rank, s, i + 1);
      if rank(s[i]) <= rank(s[m]) then i else m
  }

  lemma {:induction false} SortHead<T>(rank: T -> int, s: seq<T>, i: nat)
    requires i < |s|
    ensures SortFrom(rank, s, i)[0] == s[LeastFrom(rank, s, i)]
    decreases |s| - i
  {
    var rest := SortFrom(rank, s, i + 1);
    assert SortFrom(rank, s, i) == Place(rank, s[i], rest);
    if i + 1 < |s| {
      SortHead(rank, s, i + 1);
      PlaceHead(rank, s[i], rest);
    }
  }
}
