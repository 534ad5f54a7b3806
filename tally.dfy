/** The rank tally a `Candidate` keeps (main.py:13-17, 22-29), as a value:
    the `choice_rank` dictionary with its key order, and the fixed
    `rank_size`.  The Borda score is defined from the tally, and the lemmas
    show how a vote changes it and that the order of the votes does not
    matter. */
module Tallies {

  /** `ranks` is the key order of the `choice_rank` dictionary, `counts` the
      dictionary itself, `rankSize` the `rank_size` fixed at construction. */
  datatype Tally = Tally(ranks: seq<int>, counts: map<int, nat>, rankSize: nat)

  /** A dictionary: every key once, and the key order lists exactly its keys. */
  predicate WellFormed(t: Tally) {
    && (forall i, j :: 0 <= i < j < |t.ranks| ==> t.ranks[i] != t.ranks[j])
    && (forall k :: k in t.counts ==> k in t.ranks)
    && (forall k :: k in t.ranks ==> k in t.counts)
  }

  /** The points one vote at `rank` earns when there are `rankSize` ranks. */
  function Weight(rankSize: nat, rank: int): int {
    rankSize + 1 - rank
  }

  /** The sum, over the listed ranks, of count(rank) * (rankSize + 1 - rank). */
  function Score(ranks: seq<int>, counts: map<int, nat>, rankSize: nat): int
    requires forall k :: k in ranks ==> k in counts
  {
    if ranks == [] then 0
    else
      var k := ranks[|ranks| - 1];
      Score(ranks[..|ranks| - 1], counts, rankSize) + counts[k] * Weight(rankSize, k)
  }

  /** The sum of the counts of the listed ranks. */
  function Count(ranks: seq<int>, counts: map<int, nat>): nat
    requires forall k :: k in ranks ==> k in counts
  {
    if ranks == [] then 0
    else
      var k := ranks[|ranks| - 1];
      Count(ranks[..|ranks| - 1], counts) + counts[k]
  }

  /** The Borda score of a tally: Σ count(k) * (rank_size + 1 - k) over its ranks. */
  function Borda(t: Tally): int
    requires WellFormed(t)
  {
    Score(t.ranks, t.counts, t.rankSize)
  }

  /** The number of votes recorded in a tally. */
  function Votes(t: Tally): nat
    requires WellFormed(t)
  {
    Count(t.ranks, t.counts)
  }

  /** The tally `Candidate(name, range(lo, hi))` starts with: every rank of
      the range present with count 0, in increasing order, and
      `rank_size == len(range(lo, hi))`. */
  function Fresh(lo: int, hi: int): (t: Tally)
    ensures WellFormed(t)
    ensures t.rankSize == |t.ranks| == (if hi > lo then hi - lo else 0)
  {
    var n := if hi > lo then hi - lo else 0;
    var rs := seq(n, i => lo + i);
    Tally(rs, map k | k in rs :: 0, n)
  }

  /** The fresh tally lists the ranks of the range in increasing order,
      each with count 0, so its score and its vote count are 0. */
  lemma FreshMeaning(lo: int, hi: int)
    ensures var t := Fresh(lo, hi);
      && (forall i :: 0 <= i < |t.ranks| ==> t.ranks[i] == lo + i)
      && (forall k :: k in t.counts <==> lo <= k < hi)
      && (forall k :: k in t.counts ==> t.counts[k] == 0)
      && Borda(t) == 0 && Votes(t) == 0
  {
    var t := Fresh(lo, hi);
    forall k | lo <= k < hi ensures k in t.ranks {
      assert t.ranks[k - lo] == k;
    }
    ZeroTally(t.ranks, t.counts, t.rankSize);
  }

  lemma {:induction false} ZeroTally(ranks: seq<int>, counts: map<int, nat>, rankSize: nat)
    requires forall k :: k in ranks ==> k in counts && counts[k] == 0
    ensures Score(ranks, counts, rankSize) == 0 && Count(ranks, counts) == 0
  {
    if ranks != [] {
      ZeroTally(ranks[..|ranks| - 1], counts, rankSize);
    }
  }

  /** `set_choice`'s update of `choice_rank` (main.py:23-27): one more vote
      at `choice`; a rank outside the dictionary is added with count 1. */
  function Record(t: Tally, choice: int): (r: Tally)
    requires WellFormed(t)
    ensures WellFormed(r) && r.rankSize == t.rankSize
  {
    if choice in t.counts then t.(counts := t.counts[choice := t.counts[choice] + 1])
    else Tally(t.ranks + [choice], t.counts[choice := 1], t.rankSize)
  }

  /** A vote raises the count of its own rank by one, adding the rank with
      count 1 if it is not a key yet, and leaves every other rank as it was. */
  lemma RecordCounts(t: Tally, choice: int)
    requires WellFormed(t)
    ensures var r := Record(t, choice);
      && choice in r.counts && r.counts[choice] == (if choice in t.counts then t.counts[choice] else 0) + 1
      && (forall k :: k in r.counts <==> k in t.counts || k == choice)
      && (forall k :: k in t.counts && k != choice ==> r.counts[k] == t.counts[k])
      && (choice in t.counts ==> r.ranks == t.ranks)
      && (choice !in t.counts ==> r.ranks == t.ranks + [choice])
  {
  }

  /** Changing the count of a rank that is not listed does not change the sums. */
  lemma {:induction false} UnlistedRank(ranks: seq<int>, counts: map<int, nat>, rankSize: nat, c: int, v: nat)
    requires forall k :: k in ranks ==> k in counts
    requires c !in ranks
    ensures Score(ranks, counts[c := v], rankSize) == Score(ranks, counts, rankSize)
    ensures Count(ranks, counts[c := v]) == Count(ranks, counts)
  {
    if ranks != [] {
      UnlistedRank(ranks[..|ranks| - 1], counts, rankSize, c, v);
    }
  }

  /** One more vote at a listed rank adds that rank's weight to the score
      and one to the vote count. */
  lemma {:induction false} BumpListedRank(ranks: seq<int>, counts: map<int, nat>, rankSize: nat, c: int)
    requires forall k :: k in ranks ==> k in counts
    requires forall i, j :: 0 <= i < j < |ranks| ==> ranks[i] != ranks[j]
    requires c in ranks
    ensures Score(ranks, counts[c := counts[c] + 1], rankSize) == Score(ranks, counts, rankSize) + Weight(rankSize, c)
    ensures Count(ranks, counts[c := counts[c] + 1]) == Count(ranks, counts) + 1
  {
    var init := ranks[..|ranks| - 1];
    var k := ranks[|ranks| - 1];
    if k == c {
      assert c !in init;
      UnlistedRank(init, counts, rankSize, c, counts[c] + 1);
      assert (counts[c] + 1) * Weight(rankSize, c) == counts[c] * Weight(rankSize, c) + Weight(rankSize, c);
    } else {
      BumpListedRank(init, counts, rankSize, c);
    }
  }

  /** `set_choice` raises the Borda score by exactly `rank_size + 1 - choice`
      and the number of votes by exactly one, whether or not `choice` was in
      the original range (main.py:23-29). */
  lemma RecordEffect(t: Tally, choice: int)
    requires WellFormed(t)
    ensures Borda(Record(t, choice)) == Borda(t) + Weight(t.rankSize, choice)
    ensures Votes(Record(t, choice)) == Votes(t) + 1
  {
    if choice in t.counts {
      BumpListedRank(t.ranks, t.counts, t.rankSize, choice);
    } else {
      NewRank(t, choice);
    }
  }

  /** A vote at a rank outside the dictionary appends that rank with count 1. */
  lemma NewRank(t: Tally, choice: int)
    requires WellFormed(t) && choice !in t.counts
    ensures Borda(Record(t, choice)) == Borda(t) + Weight(t.rankSize, choice)
    ensures Votes(Record(t, choice)) == Votes(t) + 1
  {
    var ranks, counts := t.ranks + [choice], t.counts[choice := 1];
    assert ranks[..|ranks| - 1] == t.ranks;
    UnlistedRank(t.ranks, t.counts, t.rankSize, choice, 1);
    assert Score(ranks, counts, t.rankSize) == Score(t.ranks, counts, t.rankSize) + Weight(t.rankSize, choice);
    assert Count(ranks, counts) == Count(t.ranks, counts) + 1;
  }

  /** `set_choice` applied to each rank of `cs` in turn. */
  function RecordAll(t: Tally, cs: seq<int>): (r: Tally)
    requires WellFormed(t)
    ensures WellFormed(r) && r.rankSize == t.rankSize
    decreases cs
  {
    if cs == [] then t else RecordAll(Record(t, cs[0]), cs[1..])
  }

  /** Recording one more vote after a sequence of them. */
  lemma {:induction false} RecordAllSnoc(t: Tally, cs: seq<int>, c: int)
    requires WellFormed(t)
    ensures RecordAll(t, cs + [c]) == Record(RecordAll(t, cs), c)
    decreases cs
  {
    if cs == [] {
      assert [] + [c] == [c] && [c][1..] == [];
    } else {
      assert (cs + [c])[0] == cs[0] && (cs + [c])[1..] == cs[1..] + [c];
      RecordAllSnoc(Record(t, cs[0]), cs[1..], c);
    }
  }

  /** The points a sequence of votes earns: Σ (rankSize + 1 - c) over the votes. */
  function PointSum(cs: seq<int>, rankSize: nat): int {
    if cs == [] then 0 else Weight(rankSize, cs[0]) + PointSum(cs[1..], rankSize)
  }

  /** After any sequence of votes the Borda score has grown by the points of
      those votes and the vote count by their number. */
  lemma {:induction false} RecordAllEffect(t: Tally, cs: seq<int>)
    requires WellFormed(t)
    ensures Borda(RecordAll(t, cs)) == Borda(t) + PointSum(cs, t.rankSize)
    ensures Votes(RecordAll(t, cs)) == Votes(t) + |cs|
    decreases cs
  {
    if cs != [] {
      RecordEffect(t, cs[0]);
      RecordAllEffect(Record(t, cs[0]), cs[1..]);
    }
  }

  lemma {:induction false} PointSumRemove(b: seq<int>, j: nat, rankSize: nat)
    requires j < |b|
    ensures PointSum(b, rankSize) == Weight(rankSize, b[j]) + PointSum(b[..j] + b[j + 1..], rankSize)
  {
    if j == 0 {
      assert b[..0] + b[1..] == b[1..];
    } else {
      PointSumRemove(b[1..], j - 1, rankSize);
      assert b[..j] + b[j + 1..] == [b[0]] + (b[1..][..j - 1] + b[1..][j..]);
    }
  }

  lemma RemoveOne(b: seq<int>, j: nat)
    requires j < |b|
    ensures multiset(b[..j] + b[j + 1..]) == multiset(b) - multiset{b[j]}
  {
    assert b == b[..j] + [b[j]] + b[j + 1..];
  }

  lemma FirstOut(a: seq<int>)
    requires a != []
    ensures multiset(a[1..]) == multiset(a) - multiset{a[0]}
  {
    assert a == [a[0]] + a[1..];
  }

  /** The points of a set of ballots do not depend on their order. */
  lemma {:induction false} PointSumPermutation(a: seq<int>, b: seq<int>, rankSize: nat)
    requires multiset(a) == multiset(b)
    ensures PointSum(a, rankSize) == PointSum(b, rankSize)
  {
    if a == [] {
      assert |b| == |multiset(b)| == 0;
    } else {
      assert a[0] in multiset(b);
      var j :| 0 <= j < |b| && b[j] == a[0];
      RemoveOne(b, j);
      FirstOut(a);
      PointSumPermutation(a[1..], b[..j] + b[j + 1..], rankSize);
      PointSumRemove(b, j, rankSize);
    }
  }

  /** Σ count(k) * (rank_size + 1 - k) after a sequence of votes is the same
      for every order of those votes (main.py:29). */
  lemma BordaOrderIndependent(t: Tally, a: seq<int>, b: seq<int>)
    requires WellFormed(t)
    requires multiset(a) == multiset(b)
    ensures Borda(RecordAll(t, a)) == Borda(RecordAll(t, b))
  {
    RecordAllEffect(t, a);
    RecordAllEffect(t, b);
    PointSumPermutation(a, b, t.rankSize);
  }

  predicate InRange(cs: seq<int>, lo: int, hi: int) {
    forall i :: 0 <= i < |cs| ==> lo <= cs[i] < hi
  }

  /** Votes inside the range leave the rank list alone and raise each
      count by the number of votes at that rank. */
  lemma {:induction false} RecordAllCounts(t: Tally, cs: seq<int>, lo: int, hi: int)
    requires WellFormed(t)
    requires forall k :: k in t.counts <==> lo <= k < hi
    requires InRange(cs, lo, hi)
    ensures RecordAll(t, cs).ranks == t.ranks
    ensures forall k :: k in RecordAll(t, cs).counts <==> lo <= k < hi
    ensures forall k :: lo <= k < hi ==> RecordAll(t, cs).counts[k] == t.counts[k] + multiset(cs)[k]
    decreases cs
  {
    if cs != [] {
      var t' := Record(t, cs[0]);
      assert t'.ranks == t.ranks && t'.counts == t.counts[cs[0] := t.counts[cs[0]] + 1];
      assert InRange(cs[1..], lo, hi) by {
        forall i | 0 <= i < |cs[1..]| ensures lo <= cs[1..][i] < hi {
          assert cs[1..][i] == cs[i + 1];
        }
      }
      RecordAllCounts(t', cs[1..], lo, hi);
      FirstOut(cs);
    }
  }

  /** Starting from a fresh range, in-range votes give the same tally —
      key order, every count and the score — in whatever order they come. */
  lemma TallyOrderIndependent(lo: int, hi: int, a: seq<int>, b: seq<int>)
    requires InRange(a, lo, hi) && InRange(b, lo, hi)
    requires multiset(a) == multiset(b)
    ensures RecordAll(Fresh(lo, hi), a) == RecordAll(Fresh(lo, hi), b)
  {
    FreshThenRecordAll(lo, hi, a);
    FreshThenRecordAll(lo, hi, b);
  }

  /** From a fresh range, in-range votes leave each rank counted as often as
      it was voted for. */
  lemma FreshThenRecordAll(lo: int, hi: int, cs: seq<int>)
    requires InRange(cs, lo, hi)
    ensures RecordAll(Fresh(lo, hi), cs)
         == Tally(Fresh(lo, hi).ranks, map k | lo <= k < hi && k in Fresh(lo, hi).counts :: multiset(cs)[k], Fresh(lo, hi).rankSize)
  {
    var t := Fresh(lo, hi);
    FreshMeaning(lo, hi);
    RecordAllCounts(t, cs, lo, hi);
    var r := RecordAll(t, cs);
    var m := map k | lo <= k < hi && k in t.counts :: multiset(cs)[k];
    forall k ensures k in r.counts <==> k in m {
    }
    forall k | k in m ensures r.counts[k] == m[k] {
    }
    assert r.counts == m;
  }

  lemma PairCount(a: int, b: int, k: int)
    ensures multiset([a, b])[k] == (if k == a then 1 else 0) + (if k == b then 1 else 0)
  {
    assert [a, b] == [a] + [b];
  }

  /** Two ballots for one preferred candidate, ranked 1st and 2nd, give the
      tally {1:1, 2:1, 3:0, 4:0, 5:0} ... */
  lemma TwoBallotCounts()
    ensures var r := RecordAll(Fresh(1, 6), [1, 2]);
      && (forall k :: k in r.counts <==> 1 <= k <= 5)
      && r.counts[1] == 1 && r.counts[2] == 1 && r.counts[3] == 0 && r.counts[4] == 0 && r.counts[5] == 0
  {
    FreshMeaning(1, 6);
    RecordAllCounts(Fresh(1, 6), [1, 2], 1, 6);
    PairCount(1, 2, 1);
    PairCount(1, 2, 2);
    PairCount(1, 2, 3);
    PairCount(1, 2, 4);
    PairCount(1, 2, 5);
  }

  /** ... and the score 1*5 + 1*4 = 9. */
  lemma TwoBallotScore()
    ensures Borda(RecordAll(Fresh(1, 6), [1, 2])) == 9
  {
    FreshMeaning(1, 6);
    RecordAllEffect(Fresh(1, 6), [1, 2]);
    assert PointSum([1, 2], 5) == 9;
  }
}
