/** The `Candidate` class of main.py:10-58, and the value it holds. */
module Candidates {
  import opened Text
  import opened Tallies

  /** Everything a `Candidate` object holds: its name, its rank tally and
      the sanitised reasons and examples, one of each per vote. */
  datatype Nominee = Nominee(name: string, tally: Tally, reasons: seq<string>, examples: seq<string>)

  /** The invariant every `Candidate` keeps: one reason and one example per
      recorded vote. */
  predicate Consistent(n: Nominee) {
    WellFormed(n.tally) && |n.reasons| == Votes(n.tally) && |n.examples| == Votes(n.tally)
  }

  /** What `Candidate(name, range(lo, hi))` holds (main.py:11-20). */
  function NewNominee(name: string, lo: int, hi: int): (n: Nominee)
    ensures Consistent(n)
    ensures n.name == name && n.tally == Fresh(lo, hi)
    ensures Borda(n.tally) == 0 && n.reasons == [] && n.examples == []
  {
    FreshMeaning(lo, hi);
    Nominee(name, Fresh(lo, hi), [], [])
  }

  /** What `set_choice(choice, reason, example)` makes of a candidate
      (main.py:22-32). */
  function Cast(n: Nominee, choice: int, reason: string, example: string): (r: Nominee)
    requires Consistent(n)
    ensures Consistent(r) && r.name == n.name
    ensures r.tally.rankSize == n.tally.rankSize
    ensures Borda(r.tally) == Borda(n.tally) + Weight(n.tally.rankSize, choice)
    ensures |r.reasons| == |n.reasons| + 1 && r.reasons[..|n.reasons|] == n.reasons
    ensures |r.examples| == |n.examples| + 1 && r.examples[..|n.examples|] == n.examples
    ensures r.reasons[|n.reasons|] == Sanitize(reason) && r.examples[|n.examples|] == Sanitize(example)
  {
    RecordEffect(n.tally, choice);
    Nominee(n.name, Record(n.tally, choice), n.reasons + [Sanitize(reason)], n.examples + [Sanitize(example)])
  }

  /** A candidate none of whose stored texts holds a double quote. */
  predicate QuoteFree(n: Nominee) {
    && (forall i :: 0 <= i < |n.reasons| ==> '"' !in n.reasons[i])
    && (forall i :: 0 <= i < |n.examples| ==> '"' !in n.examples[i])
  }

  lemma CastQuoteFree(n: Nominee, choice: int, reason: string, example: string)
    requires Consistent(n) && QuoteFree(n)
    ensures QuoteFree(Cast(n, choice, reason, example))
  {
    AppendQuoteFree(n.reasons, Sanitize(reason));
    AppendQuoteFree(n.examples, Sanitize(example));
  }

  lemma AppendQuoteFree(xs: seq<string>, x: string)
    requires forall i :: 0 <= i < |xs| ==> '"' !in xs[i]
    requires '"' !in x
    ensures forall i :: 0 <= i < |xs + [x]| ==> '"' !in (xs + [x])[i]
  {
    forall i | 0 <= i < |xs + [x]| ensures '"' !in (xs + [x])[i] {
      if i < |xs| {
        assert (xs + [x])[i] == xs[i];
      }
    }
  }

  class Candidate {
    const name: string
    /** The key order of `choice_rank`. */
    var ranks: seq<int>
    var choiceRank: map<int, nat>
    const rankSize: nat
    var bordaCount: int
    var reasons: seq<string>
    var examples: seq<string>

    function Value(): Nominee
      reads this
    {
      Nominee(name, Tally(ranks, choiceRank, rankSize), reasons, examples)
    }

    /** The stored `borda_count` always equals the score recomputed from the tally. */
    ghost predicate Valid()
      reads this
    {
      Consistent(Value()) && bordaCount == Borda(Value().tally)
    }

    /** `Candidate(name, range(lo, hi))` (main.py:11-20). */
    constructor (name: string, lo: int, hi: int)
      ensures Valid()
      ensures Value() == NewNominee(name, lo, hi)
    {
      var rs: seq<int> := [];
      var m: map<int, nat> := map[];
      var rank := lo;
      while rank < hi
        invariant lo <= rank <= if hi > lo then hi else lo
        invariant |rs| == rank - lo
        invariant forall i :: 0 <= i < |rs| ==> rs[i] == lo + i
        invariant forall k :: k in m <==> lo <= k < rank
        invariant forall k :: k in m ==> m[k] == 0
      {
        rs := rs + [rank];
        m := m[rank := 0];
        rank := rank + 1;
      }
      FreshMeaning(lo, hi);
      var t := Fresh(lo, hi);
      assert rs == t.ranks;
      forall k ensures k in m <==> k in t.counts {
      }
      forall k | k in m ensures m[k] == t.counts[k] {
      }
      assert m == t.counts;
      this.name := name;
      ranks := rs;
      choiceRank := m;
      rankSize := |rs|;
      bordaCount := 0;
      reasons := [];
      examples := [];
    }

    /** The `sum(...)` of main.py:29, over the keys of `choice_rank` in order. */
    method ComputeBorda() returns (total: int)
      requires WellFormed(Tally(ranks, choiceRank, rankSize))
      ensures total == Borda(Tally(ranks, choiceRank, rankSize))
    {
      total := 0;
      for i := 0 to |ranks|
        invariant total == Score(ranks[..i], choiceRank, rankSize)
      {
        var key := ranks[i];
        var value := choiceRank[key];
        assert ranks[..i + 1][..i] == ranks[..i];
        total := total + value * (rankSize + 1 - key);
      }
      assert ranks[..|ranks|] == ranks;
    }

    /** `set_choice(choice, reason, examples)` (main.py:22-32). */
    method SetChoice(choice: int, reason: string, example: string)
      requires Valid()
      modifies this
      ensures Valid()
      ensures Value() == Cast(old(Value()), choice, reason, example)
      ensures bordaCount == old(bordaCount) + rankSize + 1 - choice
      ensures choice in choiceRank && choiceRank[choice] == (if choice in old(choiceRank) then old(choiceRank)[choice] else 0) + 1
      ensures forall k :: k in old(choiceRank) && k != choice ==> k in choiceRank && choiceRank[k] == old(choiceRank)[k]
    {
      ghost var before := Value().tally;
      if choice in choiceRank {
        var count := choiceRank[choice];
        choiceRank := choiceRank[choice := count + 1];
      } else {
        choiceRank := choiceRank[choice := 1];
        ranks := ranks + [choice];
      }
      assert Tally(ranks, choiceRank, rankSize) == Record(before, choice);
      RecordEffect(before, choice);
      bordaCount := ComputeBorda();
      reasons := reasons + [Sanitize(reason)];
      examples := examples + [Sanitize(example)];
    }

    /** `get_borda_count()` (main.py:34-35): the stored score, which is the
        score of the current tally. */
    function GetBordaCount(): (b: int)
      reads this
      requires Valid()
      ensures b == Borda(Value().tally)
    {
      bordaCount
    }

    /** `get_reasons()` (main.py:37-38): the reasons joined with '.'; when
        no reason holds a '.', splitting at '.' gives the reasons back. */
    function GetReasons(): (r: string)
      reads this
      ensures reasons == [] ==> r == []
      ensures reasons != [] && (forall i :: 0 <= i < |reasons| ==> '.' !in reasons[i]) ==> Split(r, '.') == reasons
    {
      if reasons != [] && (forall i :: 0 <= i < |reasons| ==> '.' !in reasons[i]) then
        SplitJoin(reasons, '.');
        Join(reasons, ".")
      else
        Join(reasons, ".")
    }

    /** `get_examples()` (main.py:40-41), as `GetReasons` for the examples. */
    function GetExamples(): (r: string)
      reads this
      ensures examples == [] ==> r == []
      ensures examples != [] && (forall i :: 0 <= i < |examples| ==> '.' !in examples[i]) ==> Split(r, '.') == examples
    {
      if examples != [] && (forall i :: 0 <= i < |examples| ==> '.' !in examples[i]) then
        SplitJoin(examples, '.');
        Join(examples, ".")
      else
        Join(examples, ".")
    }

    /** `__gt__` (main.py:43-47) as written: `a > b` holds exactly when `a`
        scores LESS than `b`. */
    function Gt(other: Candidate): (r: bool)
      reads this, other
      requires Valid() && other.Valid()
      ensures r <==> Borda(Value().tally) < Borda(other.Value().tally)
    {
      GetBordaCount() < other.GetBordaCount()
    }

    /** `__eq__` (main.py:49-50): equal scores. */
    function Eq(other: Candidate): (r: bool)
      reads this, other
      requires Valid() && other.Valid()
      ensures r <==> Borda(Value().tally) == Borda(other.Value().tally)
    {
      GetBordaCount() == other.GetBordaCount()
    }
  }

  /** Of `a > b`, `b > a` and `a == b`, exactly one holds. */
  lemma ComparisonTrichotomy(a: Candidate, b: Candidate)
    requires a.Valid() && b.Valid()
    ensures a.Gt(b) || b.Gt(a) || a.Eq(b)
    ensures !(a.Gt(b) && b.Gt(a)) && !(a.Gt(b) && a.Eq(b)) && !(b.Gt(a) && a.Eq(b))
  {
  }
}
