/**
 * `Array.prototype.sort`/`toSorted` with a consistent comparator: the stable sort.
 * The comparator is given as `le(a, b)`, "a may come before b" (the comparator returns <= 0).
 * For a total preorder the stable sorted permutation is unique, so stable insertion sort
 * computes the same list as the engine's sort.
 */
module Sorting {

  ghost predicate TotalPreorder<T(!new)>(le: (T, T) -> bool) {
    && (forall a, b :: le(a, b) || le(b, a))
    && (forall a, b, c :: le(a, b) && le(b, c) ==> le(a, c))
  }

  predicate SortedBy<T>(s: seq<T>, le: (T, T) -> bool) {
    forall i, j :: 0 <= i < j < |s| ==> le(s[i], s[j])
  }

  /** Places `x` before the first element it may precede. */
  function Insert<T>(x: T, s: seq<T>, le: (T, T) -> bool): (r: seq<T>)
    ensures multiset(r) == multiset(s) + multiset{x}
    ensures |r| == |s| + 1
  {
    if s == [] then [x]
    else if le(x, s[0]) then [x] + s
    else
      assert s == [s[0]] + s[1..];
      [s[0]] + Insert(x, s[1..], le)
  }

  /** Stable insertion sort. */
  function SortBy<T>(s: seq<T>, le: (T, T) -> bool): (r: seq<T>)
    ensures multiset(r) == multiset(s)
    ensures |r| == |s|
  {
    if s == [] then []
    else
      assert s == [s[0]] + s[1..];
      Insert(s[0], SortBy(s[1..], le), le)
  }

  lemma {:induction false} InsertSorted<T(!new)>(x: T, s: seq<T>, le: (T, T) -> bool)
    requires TotalPreorder(le) && SortedBy(s, le)
    ensures SortedBy(Insert(x, s, le), le)
  {
    if s != [] && !le(x, s[0]) {
      InsertSorted(x, s[1..], le);
      var r := Insert(x, s, le);
      var t := Insert(x, s[1..], le);
      assert r == [s[0]] + t;
      assert le(s[0], x);
      forall k | 0 <= k < |t| ensures le(s[0], t[k]) {
        assert t[k] in multiset(t);
        assert t[k] in multiset(s[1..]) + multiset{x};
        if t[k] in multiset(s[1..]) {
          var m :| 0 <= m < |s[1..]| && s[1..][m] == t[k];
          assert s[m + 1] == t[k];
        }
      }
    }
  }

  /** The sorted order: every earlier element may precede every later one. */
  lemma {:induction false} SortBySorted<T(!new)>(s: seq<T>, le: (T, T) -> bool)
    requires TotalPreorder(le)
    ensures SortedBy(SortBy(s, le), le)
  {
    if s != [] {
      SortBySorted(s[1..], le);
      InsertSorted(s[0], SortBy(s[1..], le), le);
    }
  }

  /** The elements of `s` that compare equal to `a` (each may precede the other), in order. */
  function Peers<T>(s: seq<T>, a: T, le: (T, T) -> bool): seq<T>
    decreases |s|
  {
    if s == [] then []
    else (if le(s[0], a) && le(a, s[0]) then [s[0]] else []) + Peers(s[1..], a, le)
  }

  lemma PeersCons<T>(y: T, t: seq<T>, a: T, le: (T, T) -> bool)
    ensures Peers([y] + t, a, le) == (if le(y, a) && le(a, y) then [y] else []) + Peers(t, a, le)
  {
    assert ([y] + t)[1..] == t;
  }

  /**
   * An inserted element goes in front of every element that compares equal to it. The one
   * consequence of transitivity this needs is stated as the requires.
   */
  lemma {:induction false} InsertPeers<T>(x: T, s: seq<T>, a: T, le: (T, T) -> bool)
    requires le(x, a) && le(a, x) ==> forall y :: le(a, y) ==> le(x, y)
    ensures Peers(Insert(x, s, le), a, le) == (if le(x, a) && le(a, x) then [x] else []) + Peers(s, a, le)
    decreases |s|
  {
    if s == [] {
      PeersCons(x, [], a, le);
    } else if le(x, s[0]) {
      PeersCons(x, s, a, le);
    } else {
      InsertPeers(x, s[1..], a, le);
      PassPeers(x, s, a, le);
    }
  }

  /** The step past a first element that `x` may not precede. */
  lemma PassPeers<T>(x: T, s: seq<T>, a: T, le: (T, T) -> bool)
    requires s != [] && !le(x, s[0])
    requires le(x, a) && le(a, x) ==> forall y :: le(a, y) ==> le(x, y)
    requires Peers(Insert(x, s[1..], le), a, le) == (if le(x, a) && le(a, x) then [x] else []) + Peers(s[1..], a, le)
    ensures Peers(Insert(x, s, le), a, le) == (if le(x, a) && le(a, x) then [x] else []) + Peers(s, a, le)
  {
    var px: seq<T> := if le(x, a) && le(a, x) then [x] else [];
    var p0: seq<T> := if le(s[0], a) && le(a, s[0]) then [s[0]] else [];
    var t := Insert(x, s[1..], le);
    assert Insert(x, s, le) == [s[0]] + t;
    PeersCons(s[0], t, a, le);
    assert Peers(s, a, le) == p0 + Peers(s[1..], a, le);
    assert px != [] ==> p0 == [];
    SwapEmpty(p0, px, Peers(s[1..], a, le));
  }

  lemma SwapEmpty<T>(u: seq<T>, v: seq<T>, w: seq<T>)
    requires u == [] || v == []
    ensures u + (v + w) == v + (u + w)
  {
    if u == [] {
      assert u + (v + w) == v + w;
      assert u + w == w;
    } else {
      assert v + w == w;
      assert v + (u + w) == u + w;
    }
  }

  /** In a total preorder, whatever may follow a peer of `x` may follow `x`. */
  lemma PeerFollows<T(!new)>(x: T, a: T, le: (T, T) -> bool)
    requires TotalPreorder(le)
    ensures le(x, a) && le(a, x) ==> forall y :: le(a, y) ==> le(x, y)
  {
  }

  /** Stability: the elements that compare equal to any `a` keep their input order. */
  lemma {:induction false} SortByStable<T(!new)>(s: seq<T>, a: T, le: (T, T) -> bool)
    requires TotalPreorder(le)
    ensures Peers(SortBy(s, le), a, le) == Peers(s, a, le)
    decreases |s|
  {
    if s != [] {
      SortByStable(s[1..], a, le);
      PeerFollows(s[0], a, le);
      InsertPeers(s[0], SortBy(s[1..], le), a, le);
    }
  }

}
