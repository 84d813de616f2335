/**
  What several models share.
 */
module Basics {

  datatype Option<T> = None | Some(value: T)

  function Min(a: int, b: int): int {
    if a < b then a else b
  }

  lemma Regroup<T>(a: seq<T>, b: seq<T>, c: seq<T>)
    ensures a + b + c == a + (b + c)
  {
  }

  lemma SplitLast<T>(xs: seq<T>)
    requires xs != []
    ensures xs == xs[..|xs| - 1] + [xs[|xs| - 1]]
  {
  }

  lemma OccursTwice<T>(xs: seq<T>, i: nat, j: nat)
    requires i < j < |xs| && xs[i] == xs[j]
    ensures multiset(xs)[xs[i]] >= 2
  {
    assert xs == xs[..j] + [xs[j]] + xs[j + 1..];
    assert xs[..j][i] in multiset(xs[..j]);
  }

  /** The images of all elements, in any arrangement. */
  function Images<T, U>(xs: seq<T>, f: T -> U): multiset<U> {
    if xs == [] then multiset{} else multiset{f(xs[0])} + Images(xs[1..], f)
  }

  lemma {:induction false} ImagesOfConcat<T, U>(a: seq<T>, b: seq<T>, f: T -> U)
    ensures Images(a + b, f) == Images(a, f) + Images(b, f)
  {
    if a == [] {
      assert a + b == b;
    } else {
      ImagesOfConcat(a[1..], b, f);
      HeadAndTail(a, b);
      calc {
        Images(a + b, f);
        multiset{f(a[0])} + Images(a[1..] + b, f);
        multiset{f(a[0])} + (Images(a[1..], f) + Images(b, f));
        Images(a, f) + Images(b, f);
      }
    }
  }

  lemma HeadAndTail<T>(a: seq<T>, b: seq<T>)
    requires a != []
    ensures (a + b)[0] == a[0] && (a + b)[1..] == a[1..] + b
  {
  }

  lemma TakeOut<T>(xs: seq<T>, j: nat)
    requires j < |xs|
    ensures xs == xs[..j] + ([xs[j]] + xs[j + 1..])
    ensures multiset(xs[..j] + xs[j + 1..]) == multiset(xs) - multiset{xs[j]}
  {
    assert xs == xs[..j] + ([xs[j]] + xs[j + 1..]);
  }

  lemma {:induction false} ImagesOfPermutation<T, U>(a: seq<T>, b: seq<T>, f: T -> U)
    requires multiset(a) == multiset(b)
    ensures Images(a, f) == Images(b, f)
    decreases |a|
  {
    assert |multiset(a)| == |a| && |multiset(b)| == |b|;
    if a != [] {
      assert a[0] in multiset(a);
      var j :| 0 <= j < |b| && b[j] == a[0];
      var front, back := b[..j], b[j + 1..];
      TakeOut(a, 0);
      TakeOut(b, j);
      assert a[..0] + a[1..] == a[1..];
      ImagesOfPermutation(a[1..], front + back, f);
      ImagesWithout(front, b[j], back, f);
    }
  }

  lemma ImagesWithout<T, U>(front: seq<T>, x: T, back: seq<T>, f: T -> U)
    ensures Images(front + ([x] + back), f) == multiset{f(x)} + Images(front + back, f)
  {
    ImagesOfConcat(front, [x] + back, f);
    ImagesOfConcat(front, back, f);
    assert ([x] + back)[1..] == back;
  }

  /** Positions below n, in order. */
  ghost predicate ArePositions(at: seq<nat>, n: nat) {
    && (forall k :: 0 <= k < |at| ==> at[k] < n)
    && (forall i, j :: 0 <= i < j < |at| ==> at[i] < at[j])
  }

  /** Every element with the property is at one of the positions. */
  ghost predicate ListsAll<T>(xs: seq<T>, p: T -> bool, at: seq<nat>) {
    forall i: nat :: i < |xs| && p(xs[i]) ==> i in at
  }

  lemma ListsOneMore<T>(xs: seq<T>, p: T -> bool, at: seq<nat>)
    requires xs != [] && ListsAll(xs[..|xs| - 1], p, at)
    ensures ListsAll(xs, p, if p(xs[|xs| - 1]) then at + [|xs| - 1] else at)
  {
    var n := |xs| - 1;
    var at' := if p(xs[n]) then at + [n] else at;
    forall i: nat | i < |xs| && p(xs[i]) ensures i in at' {
      if i < n {
        assert xs[..n][i] == xs[i] && i in at;
      } else {
        assert at'[|at|] == n;
      }
    }
  }

  lemma OnePositionMore(at: seq<nat>, n: nat)
    requires ArePositions(at, n)
    ensures ArePositions(at, n + 1) && ArePositions(at + [n], n + 1)
  {
  }

  /** The positions in a list with one element more at the front. */
  function OneLater(at: seq<nat>): (r: seq<nat>)
    ensures |r| == |at| && forall k :: 0 <= k < |at| ==> r[k] == at[k] + 1
  {
    seq(|at|, k requires 0 <= k < |at| => at[k] + 1)
  }

  lemma OnePositionBefore(at: seq<nat>, n: nat)
    requires ArePositions(at, n)
    ensures ArePositions(OneLater(at), n + 1) && ArePositions([0] + OneLater(at), n + 1)
  {
  }

  lemma ListsOneBefore<T>(xs: seq<T>, p: T -> bool, at: seq<nat>)
    requires xs != [] && ListsAll(xs[1..], p, at)
    ensures ListsAll(xs, p, if p(xs[0]) then [0] + OneLater(at) else OneLater(at))
  {
    var at' := if p(xs[0]) then [0] + OneLater(at) else OneLater(at);
    forall i: nat | i < |xs| && p(xs[i]) ensures i in at' {
      if i > 0 {
        assert xs[1..][i - 1] == xs[i] && i - 1 in at;
        var k :| 0 <= k < |at| && at[k] == i - 1;
        assert OneLater(at)[k] == i;
      } else {
        assert at'[0] == 0;
      }
    }
  }
}
