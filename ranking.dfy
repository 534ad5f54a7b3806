/** The ordering `sorted(items, key=score, reverse=True)` gives (main.py:125-126).
    Python's sort is stable, and with `reverse=True` it still keeps equal
    keys in their original order; so item `x` comes before item `y` exactly
    when `x` scores more, or scores the same and came first.  The order is
    computed as a list of positions by insertion, and shown to be the one
    list of positions that is a permutation and is ordered that way. */
module Ranking {

  /** The score at position `x` (0 past the end, where no position of the
      list is). */
  function Key(keys: seq<int>, x: nat): int {
    if x < |keys| then keys[x] else 0
  }

  /** Position `x` goes before position `y`: a higher score, or an equal
      score and an earlier position. */
  predicate Before(keys: seq<int>, x: nat, y: nat) {
    Key(keys, x) > Key(keys, y) || (Key(keys, x) == Key(keys, y) && x < y)
  }

  /** `x` goes before every entry of `o`. */
  predicate AllAfter(keys: seq<int>, x: nat, o: seq<nat>) {
    forall y :: y in o ==> Before(keys, x, y)
  }

  /** Each entry of `o` goes before all the entries that follow it. */
  predicate Descending(keys: seq<int>, o: seq<nat>) {
    o == [] || (AllAfter(keys, o[0], o[1..]) && Descending(keys, o[1..]))
  }

  /** The positions 0 .. n-1 in increasing order. */
  function Positions(n: nat): (r: seq<nat>)
    ensures |r| == n
  {
    if n == 0 then [] else Positions(n - 1) + [n - 1]
  }

  /** `i` placed into the ordered list `o` in front of the first entry it
      goes before. */
  function Insert(keys: seq<int>, o: seq<nat>, i: nat): (r: seq<nat>)
    ensures |r| == |o| + 1
    ensures multiset(r) == multiset(o) + multiset{i}
  {
    if o == [] then [i]
    else if Before(keys, o[0], i) then
      assert o == [o[0]] + o[1..];
      [o[0]] + Insert(keys, o[1..], i)
    else [i] + o
  }

  /** The order of the first `n` positions. */
  function OrderUpTo(keys: seq<int>, n: nat): (o: seq<nat>)
    ensures |o| == n
  {
    if n == 0 then [] else Insert(keys, OrderUpTo(keys, n - 1), n - 1)
  }

  /** The first `n` positions ordered are the first `n` positions. */
  lemma {:induction false} OrderUpToPositions(keys: seq<int>, n: nat)
    ensures multiset(OrderUpTo(keys, n)) == multiset(Positions(n))
  {
    if n > 0 {
      OrderUpToPositions(keys, n - 1);
    }
  }

  /** The positions of `keys`, best score first, ties in original order. */
  function Order(keys: seq<int>): (o: seq<nat>)
    ensures |o| == |keys|
  {
    OrderUpTo(keys, |keys|)
  }

  lemma {:induction false} PositionsBound(n: nat, x: nat)
    requires x in multiset(Positions(n))
    ensures x < n
  {
    if n > 0 {
      assert Positions(n) == Positions(n - 1) + [n - 1];
      if x != n - 1 {
        PositionsBound(n - 1, x);
      }
    }
  }

  lemma {:induction false} PositionsAll(n: nat, x: nat)
    requires x < n
    ensures x in multiset(Positions(n))
  {
    assert Positions(n) == Positions(n - 1) + [n - 1];
    if x < n - 1 {
      PositionsAll(n - 1, x);
    }
  }

  /** The order holds every position of `keys` exactly once, and nothing else. */
  lemma OrderPermutation(keys: seq<int>)
    ensures multiset(Order(keys)) == multiset(Positions(|keys|))
    ensures forall k :: 0 <= k < |keys| ==> Order(keys)[k] < |keys|
    ensures forall x :: 0 <= x < |keys| ==> x in Order(keys)
  {
    var o := Order(keys);
    OrderUpToPositions(keys, |keys|);
    forall k | 0 <= k < |o| ensures o[k] < |keys| {
      assert o[k] in multiset(o);
      PositionsBound(|keys|, o[k]);
    }
    forall x | 0 <= x < |keys| ensures x in o {
      PositionsAll(|keys|, x);
    }
  }

  /** Inserting keeps the list ordered. */
  lemma {:induction false} InsertDescending(keys: seq<int>, o: seq<nat>, i: nat)
    requires i !in o && Descending(keys, o)
    ensures Descending(keys, Insert(keys, o, i))
  {
    if o != [] {
      var x, t := o[0], o[1..];
      assert o == [x] + t;
      var r := Insert(keys, o, i);
      if Before(keys, x, i) {
        InsertDescending(keys, t, i);
        var rest := Insert(keys, t, i);
        assert r[0] == x && r[1..] == rest;
        forall y | y in rest ensures Before(keys, x, y) {
          assert y in multiset(rest);
        }
      } else {
        assert r[0] == i && r[1..] == o;
        assert Before(keys, i, x);
        forall y | y in o ensures Before(keys, i, y) {
          if y != x {
            assert y in t;
          }
        }
      }
    }
  }

  lemma {:induction false} PositionsAbove(n: nat, x: nat)
    requires x >= n
    ensures x !in multiset(Positions(n))
  {
    if n > 0 {
      assert Positions(n) == Positions(n - 1) + [n - 1];
      PositionsAbove(n - 1, x);
    }
  }

  /** Position `n` is not yet among the first `n` ordered. */
  lemma NotYetOrdered(keys: seq<int>, n: nat)
    ensures n !in OrderUpTo(keys, n)
  {
    PositionsAbove(n, n);
    OrderUpToPositions(keys, n);
    assert n !in multiset(OrderUpTo(keys, n));
  }

  lemma {:induction false} OrderUpToDescending(keys: seq<int>, n: nat)
    ensures Descending(keys, OrderUpTo(keys, n))
  {
    if n > 0 {
      var o := OrderUpTo(keys, n - 1);
      OrderUpToDescending(keys, n - 1);
      NotYetOrdered(keys, n - 1);
      InsertDescending(keys, o, n - 1);
      assert OrderUpTo(keys, n) == Insert(keys, o, n - 1);
    } else {
      assert OrderUpTo(keys, n) == [];
    }
  }

  /** Each entry of an ordered list goes before every later one. */
  lemma {:induction false} DescendingPairwise(keys: seq<int>, o: seq<nat>)
    requires Descending(keys, o)
    ensures forall a, b :: 0 <= a < b < |o| ==> Before(keys, o[a], o[b])
  {
    if o != [] {
      DescendingPairwise(keys, o[1..]);
      forall a, b | 0 <= a < b < |o| ensures Before(keys, o[a], o[b]) {
        assert o[b] == o[1..][b - 1];
        if a > 0 {
          assert o[a] == o[1..][a - 1];
        } else {
          assert o[b] in o[1..];
        }
      }
    }
  }

  /** The order puts higher scores first and keeps ties in their original
      order, as Python's stable reverse sort does. */
  lemma OrderDescending(keys: seq<int>)
    ensures Descending(keys, Order(keys))
    ensures forall a, b :: 0 <= a < b < |keys| ==>
      var x, y := Order(keys)[a], Order(keys)[b];
      Key(keys, x) > Key(keys, y) || (Key(keys, x) == Key(keys, y) && x < y)
  {
    OrderUpToDescending(keys, |keys|);
    DescendingPairwise(keys, Order(keys));
  }

  /** The sort order never lists a position twice. */
  lemma OrderDistinct(keys: seq<int>)
    ensures forall a, b :: 0 <= a < b < |Order(keys)| ==> Order(keys)[a] != Order(keys)[b]
  {
    OrderDescending(keys);
  }

  lemma HeadTail(o: seq<nat>)
    requires o != []
    ensures multiset(o[1..]) == multiset(o) - multiset{o[0]}
    ensures forall y :: y in o ==> y == o[0] || y in o[1..]
  {
    assert o == [o[0]] + o[1..];
  }

  /** The first entry of an ordered list goes before every other entry of it. */
  lemma HeadFirst(keys: seq<int>, o: seq<nat>, y: nat)
    requires Descending(keys, o) && o != []
    requires y in multiset(o)
    ensures y == o[0] || Before(keys, o[0], y)
  {
    HeadTail(o);
  }

  /** Two ordered lists of the same positions are the same list. */
  lemma {:induction false} DescendingUnique(keys: seq<int>, o1: seq<nat>, o2: seq<nat>)
    requires Descending(keys, o1) && Descending(keys, o2)
    requires multiset(o1) == multiset(o2)
    ensures o1 == o2
  {
    assert |o1| == |multiset(o1)| == |multiset(o2)| == |o2|;
    if o1 != [] {
      var x, y := o1[0], o2[0];
      assert x in multiset(o1) && y in multiset(o2);
      HeadFirst(keys, o2, x);
      HeadFirst(keys, o1, y);
      assert x == y;
      HeadTail(o1);
      HeadTail(o2);
      DescendingUnique(keys, o1[1..], o2[1..]);
      assert o1 == [x] + o1[1..] && o2 == [y] + o2[1..];
    }
  }

  /** `Order` is the one stable descending order of the positions: any
      stable `sorted(..., reverse=True)` gives exactly this list. */
  lemma OrderUnique(keys: seq<int>, o: seq<nat>)
    requires Descending(keys, o)
    requires multiset(o) == multiset(Positions(|keys|))
    ensures o == Order(keys)
  {
    OrderUpToDescending(keys, |keys|);
    OrderUpToPositions(keys, |keys|);
    DescendingUnique(keys, o, Order(keys));
  }

  /** The entries of `xs` at the positions `o`, in that order. */
  function Permute<T>(xs: seq<T>, o: seq<nat>): (r: seq<T>)
    requires InBounds(o, |xs|)
    ensures |r| == |o|
  {
    if o == [] then [] else Permute(xs, o[..|o| - 1]) + [xs[o[|o| - 1]]]
  }

  lemma {:induction false} PermuteAt<T>(xs: seq<T>, o: seq<nat>, k: nat)
    requires InBounds(o, |xs|)
    requires k < |o|
    ensures Permute(xs, o)[k] == xs[o[k]]
  {
    if k < |o| - 1 {
      PermuteAt(xs, o[..|o| - 1], k);
    }
  }

  lemma {:induction false} PositionsAt(n: nat, k: nat)
    requires k < n
    ensures Positions(n)[k] == k
  {
    if k < n - 1 {
      PositionsAt(n - 1, k);
    }
  }

  /** Every entry of `o` is a position of a list of length `n`. */
  predicate InBounds(o: seq<nat>, n: nat) {
    forall k :: 0 <= k < |o| ==> o[k] < n
  }

  lemma InBoundsAppend(a: seq<nat>, b: seq<nat>, n: nat)
    requires InBounds(a, n) && InBounds(b, n)
    ensures InBounds(a + b, n)
  {
    forall k | 0 <= k < |a + b| ensures (a + b)[k] < n {
      if k < |a| {
        assert (a + b)[k] == a[k];
      } else {
        assert (a + b)[k] == b[k - |a|];
      }
    }
  }

  lemma {:induction false} PermuteAppend<T>(xs: seq<T>, a: seq<nat>, b: seq<nat>)
    requires InBounds(a, |xs|) && InBounds(b, |xs|)
    ensures InBounds(a + b, |xs|)
    ensures Permute(xs, a + b) == Permute(xs, a) + Permute(xs, b)
  {
    InBoundsAppend(a, b, |xs|);
    if b == [] {
      assert a + b == a;
    } else {
      var c := a + b;
      assert c[..|c| - 1] == a + b[..|b| - 1] && c[|c| - 1] == b[|b| - 1];
      PermuteAppend(xs, a, b[..|b| - 1]);
    }
  }

  /** Taking out one position takes out its entry. */
  lemma PermuteRemove<T>(xs: seq<T>, a: seq<nat>, x: nat, b: seq<nat>)
    requires InBounds(a, |xs|) && InBounds(b, |xs|) && x < |xs|
    ensures InBounds(a + [x] + b, |xs|) && InBounds(a + b, |xs|)
    ensures multiset(Permute(xs, a + [x] + b)) == multiset(Permute(xs, a + b)) + multiset{xs[x]}
  {
    assert InBounds([x], |xs|);
    PermuteAppend(xs, a, [x]);
    PermuteAppend(xs, a + [x], b);
    PermuteAppend(xs, a, b);
    assert Permute(xs, [x]) == [xs[x]];
  }

  /** An entry of `o` splits it into what comes before and after it. */
  lemma Pick(o: seq<nat>, x: nat, n: nat) returns (a: seq<nat>, b: seq<nat>)
    requires InBounds(o, n) && x in multiset(o)
    ensures o == a + [x] + b
    ensures multiset(a + b) == multiset(o) - multiset{x}
    ensures InBounds(a, n) && InBounds(b, n)
  {
    var j :| 0 <= j < |o| && o[j] == x;
    a, b := o[..j], o[j + 1..];
    assert o == a + [x] + b;
    assert forall k :: 0 <= k < |a| ==> a[k] == o[k];
    assert forall k :: 0 <= k < |b| ==> b[k] == o[j + 1 + k];
  }

  lemma InBoundsFront(o: seq<nat>, n: nat)
    requires InBounds(o, n) && o != []
    ensures InBounds(o[..|o| - 1], n) && o[|o| - 1] < n
    ensures multiset(o[..|o| - 1]) == multiset(o) - multiset{o[|o| - 1]}
  {
    assert o == o[..|o| - 1] + [o[|o| - 1]];
  }

  /** Which entries a reordering picks depends only on the positions it
      holds, not on their order. */
  lemma {:induction false} PermuteMultiset<T>(xs: seq<T>, o1: seq<nat>, o2: seq<nat>)
    requires InBounds(o1, |xs|) && InBounds(o2, |xs|)
    requires multiset(o1) == multiset(o2)
    ensures multiset(Permute(xs, o1)) == multiset(Permute(xs, o2))
    decreases |o1|
  {
    if o1 != [] {
      var x := o1[|o1| - 1];
      var init := o1[..|o1| - 1];
      InBoundsFront(o1, |xs|);
      assert x in multiset(o1);
      var a, b := Pick(o2, x, |xs|);
      PermuteRemove(xs, a, x, b);
      PermuteMultiset(xs, init, a + b);
    } else {
      assert |o2| == |multiset(o2)| == 0;
    }
  }

  lemma {:induction false} PermutePositions<T>(xs: seq<T>, n: nat)
    requires n <= |xs|
    ensures InBounds(Positions(n), |xs|)
    ensures Permute(xs, Positions(n)) == xs[..n]
  {
    forall k | 0 <= k < n ensures Positions(n)[k] < |xs| {
      PositionsAt(n, k);
    }
    if n > 0 {
      PermutePositions(xs, n - 1);
      assert Positions(n)[..n - 1] == Positions(n - 1);
      assert xs[..n] == xs[..n - 1] + [xs[n - 1]];
    }
  }

  /** Reordering by a permutation of the positions keeps every entry, as many
      times as it occurs. */
  lemma PermutePermutes<T>(xs: seq<T>, o: seq<nat>)
    requires InBounds(o, |xs|)
    requires multiset(o) == multiset(Positions(|xs|))
    ensures multiset(Permute(xs, o)) == multiset(xs)
  {
    PermutePositions(xs, |xs|);
    PermuteMultiset(xs, o, Positions(|xs|));
    assert xs[..|xs|] == xs;
  }

  /** Three entries scored 1, 3 and 3 come out as the second, the third
      (tied with it, so after it) and the first. */
  lemma OrderExample()
    ensures Order([1, 3, 3]) == [1, 2, 0]
  {
    var keys := [1, 3, 3];
    assert OrderUpTo(keys, 1) == [0];
    assert !Before(keys, 0, 1);
    assert OrderUpTo(keys, 2) == [1, 0];
    assert Before(keys, 1, 2) && !Before(keys, 0, 2);
    assert [1, 0][1..] == [0];
    assert Insert(keys, [0], 2) == [2, 0];
    assert OrderUpTo(keys, 3) == [1] + Insert(keys, [0], 2);
  }
}
