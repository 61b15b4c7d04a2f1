/** Small facts about sequences of task numbers, shared by the protocol models. */
module SeqFacts {

  ghost predicate NoDup<T>(s: seq<T>) {
    forall i, j :: 0 <= i < j < |s| ==> s[i] != s[j]
  }

  ghost predicate InRange(s: seq<nat>, n: nat) {
    forall i :: 0 <= i < |s| ==> s[i] < n
  }

  /** `s` lists each of 0, ..., n-1 exactly once. */
  ghost predicate IsPermutation(s: seq<nat>, n: nat) {
    |s| == n && NoDup(s) && InRange(s, n)
  }

  ghost function Elements<T>(s: seq<T>): set<T> {
    set x | x in s
  }

  /** A set of numbers below n has at most n elements, and n only when none is missing. */
  lemma {:induction false} BelowSize(a: set<nat>, n: nat)
    requires forall x :: x in a ==> x < n
    ensures |a| <= n
    ensures |a| == n <==> forall x: nat :: x < n ==> x in a
  {
    if n == 0 {
      assert a == {};
    } else {
      var b := a - {n - 1};
      BelowSize(b, n - 1);
      if n - 1 in a {
        assert a == b + {n - 1};
      } else {
        assert a == b;
      }
    }
  }

  lemma SubsetSize<T>(a: set<T>, b: set<T>)
    requires a <= b
    ensures |a| <= |b|
    ensures |a| == |b| ==> a == b
  {
    assert b == a + (b - a);
  }

  lemma {:induction false} NoDupSize<T>(s: seq<T>)
    requires NoDup(s)
    ensures |Elements(s)| == |s|
  {
    if s != [] {
      var t, x := s[..|s| - 1], s[|s| - 1];
      NoDupSize(t);
      assert s == t + [x] && x !in t;
      assert Elements(s) == Elements(t) + {x};
    } else {
      assert Elements(s) == {};
    }
  }

  /** A duplicate-free list of numbers below n has at most n elements, and n only when none is missing. */
  lemma NoDupBound(s: seq<nat>, n: nat)
    requires NoDup(s) && InRange(s, n)
    ensures |s| <= n
    ensures |s| == n <==> forall i: nat :: i < n ==> i in s
  {
    NoDupSize(s);
    BelowSize(Elements(s), n);
    assert forall i: nat :: i in s <==> i in Elements(s);
  }

  /** The values found at the listed positions. */
  function Gather<T>(vals: seq<T>, ids: seq<nat>): (r: seq<T>)
    requires forall k :: 0 <= k < |ids| ==> ids[k] < |vals|
    ensures |r| == |ids|
    ensures forall k :: 0 <= k < |ids| ==> r[k] == vals[ids[k]]
  {
    seq(|ids|, k requires 0 <= k < |ids| => vals[ids[k]])
  }

  function Without<T>(s: seq<T>, p: nat): (r: seq<T>)
    requires p < |s|
  {
    s[..p] + s[p + 1..]
  }

  lemma WithoutCounts<T>(s: seq<T>, p: nat)
    requires p < |s|
    ensures multiset(s) == multiset(Without(s, p)) + multiset{s[p]}
  {
    assert s == s[..p] + [s[p]] + s[p + 1..];
  }

  lemma GatherWithout<T>(vals: seq<T>, ids: seq<nat>, p: nat)
    requires IsPermutation(ids, |vals|) && p < |ids| && ids[p] == |ids| - 1
    ensures IsPermutation(Without(ids, p), |vals| - 1)
    ensures Gather(vals[..|vals| - 1], Without(ids, p)) == Without(Gather(vals, ids), p)
  {
  }

  lemma PositionOfLast(ids: seq<nat>) returns (p: nat)
    requires IsPermutation(ids, |ids|) && ids != []
    ensures p < |ids| && ids[p] == |ids| - 1
  {
    NoDupBound(ids, |ids|);
    assert |ids| - 1 in ids;
    p :| 0 <= p < |ids| && ids[p] == |ids| - 1;
  }

  /** Gathering along a permutation loses nothing and repeats nothing. */
  lemma {:induction false} PermutationConserves<T>(vals: seq<T>, ids: seq<nat>)
    requires IsPermutation(ids, |vals|)
    ensures multiset(Gather(vals, ids)) == multiset(vals)
    decreases |vals|
  {
    var n := |vals|;
    if n == 0 {
      assert vals == [] && Gather(vals, ids) == [];
    } else {
      var p := PositionOfLast(ids);
      GatherWithout(vals, ids, p);
      PermutationConserves(vals[..n - 1], Without(ids, p));
      WithoutCounts(Gather(vals, ids), p);
      WithoutCounts(vals, n - 1);
      assert Without(vals, n - 1) == vals[..n - 1];
    }
  }

  /** The elements of `s` that satisfy `keep`, in order. */
  function Select(s: seq<nat>, keep: nat -> bool): (r: seq<nat>)
    ensures |r| <= |s|
    ensures forall x :: x in r <==> x in s && keep(x)
  {
    if s == [] then []
    else
      var rest := Select(s[..|s| - 1], keep);
      var last := s[|s| - 1];
      if keep(last) then rest + [last] else rest
  }

  /** One turn of a loop that moves a piece from what is left to what is done. */
  lemma Moved<T>(done: seq<T>, piece: seq<T>, rest: seq<T>)
    ensures (done + piece) + rest == done + (piece + rest)
  {
  }

  /** The sum of `rank` over a sequence: how much work its members have left. */
  function Total<T>(s: seq<T>, rank: T -> nat): nat {
    if s == [] then 0 else Total(s[..|s| - 1], rank) + rank(s[|s| - 1])
  }

  lemma {:induction false} TotalUpdate<T>(s: seq<T>, rank: T -> nat, i: nat, x: T)
    requires i < |s|
    ensures Total(s[i := x], rank) == Total(s, rank) - rank(s[i]) + rank(x)
  {
    var n := |s| - 1;
    if i == n {
      assert s[i := x][..n] == s[..n];
    } else {
      assert s[i := x][..n] == s[..n][i := x];
      TotalUpdate(s[..n], rank, i, x);
    }
  }

  lemma {:induction false} TotalUniform<T>(s: seq<T>, rank: T -> nat, r: nat)
    requires forall i :: 0 <= i < |s| ==> rank(s[i]) == r
    ensures Total(s, rank) == r * |s|
  {
    if s != [] {
      TotalUniform(s[..|s| - 1], rank, r);
    }
  }
}
