/** `extract_data` (main.py:83-127) and the top-candidate filter
    (main.py:144).  The two dictionaries `the_candidates` and
    `the_unsuitables` map a name to the `Candidate` built for it, in the
    order the names were first met; since every such candidate is built
    with the name it is stored under, a dictionary is modelled as the list
    of its candidates, keyed by their `name`. */
module Aggregate {
  import opened Failures
  import opened Text
  import opened Tallies
  import opened Candidates
  import opened Ranking
  import opened Votes

  // ---- The dictionaries as values -----------------------------------------

  predicate AllConsistent(ns: seq<Nominee>) {
    forall i :: 0 <= i < |ns| ==> Consistent(ns[i])
  }

  /** The keys of a dictionary, in order. */
  function Names(ns: seq<Nominee>): (r: seq<string>)
    ensures |r| == |ns|
  {
    if ns == [] then [] else Names(ns[..|ns| - 1]) + [ns[|ns| - 1].name]
  }

  lemma {:induction false} NamesAt(ns: seq<Nominee>, i: nat)
    requires i < |ns|
    ensures Names(ns)[i] == ns[i].name
  {
    if i < |ns| - 1 {
      NamesAt(ns[..|ns| - 1], i);
    }
  }

  /** Where `name` first occurs in `names`, if it does. */
  function Find(names: seq<string>, name: string): (r: Option<nat>)
    ensures r.Some? ==> r.value < |names| && names[r.value] == name
  {
    if names == [] then None
    else if names[0] == name then Some(0)
    else
      match Find(names[1..], name)
      case None => None
      case Some(j) => Some(j + 1)
  }

  /** `name in the_candidates`. */
  lemma {:induction false} FindMeaning(names: seq<string>, name: string)
    ensures Find(names, name).Some? <==> name in names
    ensures Find(names, name).Some? ==> forall k :: 0 <= k < Find(names, name).value ==> names[k] != name
  {
    if names != [] && names[0] != name {
      FindMeaning(names[1..], name);
      assert names == [names[0]] + names[1..];
      var r := Find(names, name);
      if r.Some? {
        forall k | 0 <= k < r.value ensures names[k] != name {
          if k > 0 {
            assert names[k] == names[1..][k - 1];
          }
        }
      }
    }
  }

  /** One vote cast into a dictionary (main.py:100-107, 113-118): the
      candidate stored under the vote's name gets the vote; a name not yet
      stored gets a new `Candidate(name, range(lo, hi))`, added at the end,
      which then gets the vote. */
  function Enter(ns: seq<Nominee>, v: Vote, lo: int, hi: int): (r: seq<Nominee>)
    requires AllConsistent(ns)
    ensures AllConsistent(r)
  {
    match Find(Names(ns), v.name)
    case Some(j) =>
      var n := Cast(ns[j], v.rank, v.reason, v.example);
      ConsistentUpdate(ns, j, n);
      ns[j := n]
    case None =>
      var n := Cast(NewNominee(v.name, lo, hi), v.rank, v.reason, v.example);
      ConsistentSnoc(ns, n);
      ns + [n]
  }

  lemma ConsistentUpdate(ns: seq<Nominee>, j: nat, n: Nominee)
    requires AllConsistent(ns) && j < |ns| && Consistent(n)
    ensures AllConsistent(ns[j := n])
  {
  }

  lemma ConsistentSnoc(ns: seq<Nominee>, n: Nominee)
    requires AllConsistent(ns) && Consistent(n)
    ensures AllConsistent(ns + [n])
  {
    forall i | 0 <= i < |ns| + 1 ensures Consistent((ns + [n])[i]) {
      if i < |ns| {
        assert (ns + [n])[i] == ns[i];
      }
    }
  }

  /** The dictionary after casting the votes `vs` in order into an empty one. */
  function Tallied(vs: seq<Vote>, lo: int, hi: int): (r: seq<Nominee>)
    ensures AllConsistent(r)
  {
    if vs == [] then [] else Enter(Tallied(vs[..|vs| - 1], lo, hi), vs[|vs| - 1], lo, hi)
  }

  lemma TalliedSnoc(vs: seq<Vote>, v: Vote, lo: int, hi: int)
    ensures Tallied(vs + [v], lo, hi) == Enter(Tallied(vs, lo, hi), v, lo, hi)
  {
    var t := vs + [v];
    assert t[..|t| - 1] == vs && t[|t| - 1] == v;
  }

  // ---- What a dictionary holds ---------------------------------------------

  /** The names the votes are for, in voting order. */
  function VoteNames(vs: seq<Vote>): (r: seq<string>)
    ensures |r| == |vs|
  {
    if vs == [] then [] else VoteNames(vs[..|vs| - 1]) + [vs[|vs| - 1].name]
  }

  /** Each name once, in the order of its first occurrence. */
  function Dedup(xs: seq<string>): (r: seq<string>) {
    if xs == [] then []
    else
      var d := Dedup(xs[..|xs| - 1]);
      if xs[|xs| - 1] in d then d else d + [xs[|xs| - 1]]
  }

  predicate NoDuplicates(xs: seq<string>) {
    forall a, b :: 0 <= a < b < |xs| ==> xs[a] != xs[b]
  }

  lemma {:induction false} DedupMeaning(xs: seq<string>)
    ensures NoDuplicates(Dedup(xs))
    ensures forall x :: x in Dedup(xs) <==> x in xs
  {
    if xs != [] {
      var init, x := xs[..|xs| - 1], xs[|xs| - 1];
      DedupMeaning(init);
      assert xs == init + [x];
      var d := Dedup(init);
      if x !in d {
        assert forall a :: 0 <= a < |d| ==> (d + [x])[a] == d[a];
      }
    }
  }

  lemma NamesSnoc(ns: seq<Nominee>, n: Nominee)
    ensures Names(ns + [n]) == Names(ns) + [n.name]
  {
    var t := ns + [n];
    assert t[..|t| - 1] == ns && t[|t| - 1] == n;
  }

  lemma {:induction false} NamesUpdate(ns: seq<Nominee>, j: nat, n: Nominee)
    requires j < |ns| && n.name == ns[j].name
    ensures Names(ns[j := n]) == Names(ns)
  {
    var init := ns[..|ns| - 1];
    if j < |ns| - 1 {
      NamesUpdate(init, j, n);
      assert ns[j := n][..|ns| - 1] == init[j := n];
    } else {
      assert ns[j := n][..|ns| - 1] == init;
    }
  }

  lemma VoteNamesSnoc(vs: seq<Vote>, v: Vote)
    ensures VoteNames(vs + [v]) == VoteNames(vs) + [v.name]
  {
    var t := vs + [v];
    assert t[..|t| - 1] == vs && t[|t| - 1] == v;
  }

  /** The keys of the dictionary are the names voted for, each once, in the
      order in which they were first voted for: a Python dictionary keeps
      its first insertion order when a key is assigned again. */
  lemma {:induction false} TalliedNames(vs: seq<Vote>, lo: int, hi: int)
    ensures Names(Tallied(vs, lo, hi)) == Dedup(VoteNames(vs))
  {
    if vs != [] {
      var init, v := vs[..|vs| - 1], vs[|vs| - 1];
      assert vs == init + [v];
      TalliedNames(init, lo, hi);
      VoteNamesSnoc(init, v);
      var ns := Tallied(init, lo, hi);
      FindMeaning(Names(ns), v.name);
      var names := VoteNames(vs);
      assert names[..|names| - 1] == VoteNames(init) && names[|names| - 1] == v.name;
      match Find(Names(ns), v.name)
      case Some(j) =>
        NamesAt(ns, j);
        NamesUpdate(ns, j, Cast(ns[j], v.rank, v.reason, v.example));
      case None =>
        NamesSnoc(ns, Cast(NewNominee(v.name, lo, hi), v.rank, v.reason, v.example));
    }
  }

  /** No name is stored twice. */
  lemma UniqueNames(vs: seq<Vote>, lo: int, hi: int)
    ensures NoDuplicates(Names(Tallied(vs, lo, hi)))
    ensures forall x :: x in Names(Tallied(vs, lo, hi)) <==> x in VoteNames(vs)
  {
    TalliedNames(vs, lo, hi);
    DedupMeaning(VoteNames(vs));
  }

  /** The votes for `name`, in voting order. */
  function VotesFor(vs: seq<Vote>, name: string): (r: seq<Vote>) {
    if vs == [] then []
    else if vs[|vs| - 1].name == name then VotesFor(vs[..|vs| - 1], name) + [vs[|vs| - 1]]
    else VotesFor(vs[..|vs| - 1], name)
  }

  /** A candidate after the votes `ws`, one `set_choice` each, in order. */
  function CastAll(n: Nominee, ws: seq<Vote>): (r: Nominee)
    requires Consistent(n)
    ensures Consistent(r)
  {
    if ws == [] then n else Cast(CastAll(n, ws[..|ws| - 1]), ws[|ws| - 1].rank, ws[|ws| - 1].reason, ws[|ws| - 1].example)
  }

  lemma VotesForSnoc(vs: seq<Vote>, v: Vote, name: string)
    ensures VotesFor(vs + [v], name) == if v.name == name then VotesFor(vs, name) + [v] else VotesFor(vs, name)
  {
    var t := vs + [v];
    assert t[..|t| - 1] == vs && t[|t| - 1] == v;
  }

  lemma CastAllSnoc(n: Nominee, ws: seq<Vote>, v: Vote)
    requires Consistent(n)
    ensures CastAll(n, ws + [v]) == Cast(CastAll(n, ws), v.rank, v.reason, v.example)
  {
    var t := ws + [v];
    assert t[..|t| - 1] == ws && t[|t| - 1] == v;
  }

  lemma {:induction false} NoVotesFor(vs: seq<Vote>, name: string)
    requires name !in VoteNames(vs)
    ensures VotesFor(vs, name) == []
  {
    if vs != [] {
      var init := vs[..|vs| - 1];
      VoteNamesSnoc(init, vs[|vs| - 1]);
      assert vs == init + [vs[|vs| - 1]];
      NoVotesFor(init, name);
    }
  }

  /** `n` is what a fresh candidate becomes after all the votes in `vs`
      for its name, in order. */
  ghost predicate Collected(vs: seq<Vote>, lo: int, hi: int, n: Nominee) {
    n == CastAll(NewNominee(n.name, lo, hi), VotesFor(vs, n.name))
  }

  /** The candidate stored under a name is the one that received all the
      votes for that name, in order, starting from a fresh candidate. */
  lemma {:induction false} TalliedCollects(vs: seq<Vote>, lo: int, hi: int)
    ensures forall i :: 0 <= i < |Tallied(vs, lo, hi)| ==> Collected(vs, lo, hi, Tallied(vs, lo, hi)[i])
  {
    if vs != [] {
      var init, v := vs[..|vs| - 1], vs[|vs| - 1];
      SplitLast(vs);
      TalliedCollects(init, lo, hi);
      UniqueNames(init, lo, hi);
      TalliedSnoc(init, v, lo, hi);
      EnterCollects(init, v, Tallied(init, lo, hi), lo, hi);
    }
  }

  /** One more vote keeps every stored candidate collected. */
  lemma EnterCollects(init: seq<Vote>, v: Vote, ns: seq<Nominee>, lo: int, hi: int)
    requires AllConsistent(ns) && NoDuplicates(Names(ns))
    requires forall x :: x in Names(ns) <==> x in VoteNames(init)
    requires forall i :: 0 <= i < |ns| ==> Collected(init, lo, hi, ns[i])
    ensures forall i :: 0 <= i < |Enter(ns, v, lo, hi)| ==> Collected(init + [v], lo, hi, Enter(ns, v, lo, hi)[i])
  {
    match Find(Names(ns), v.name)
    case Some(j) => EnterFound(init, v, ns, lo, hi, j);
    case None => EnterMissing(init, v, ns, lo, hi);
  }

  lemma EnterFound(init: seq<Vote>, v: Vote, ns: seq<Nominee>, lo: int, hi: int, j: nat)
    requires AllConsistent(ns) && NoDuplicates(Names(ns))
    requires Find(Names(ns), v.name) == Some(j)
    requires forall i :: 0 <= i < |ns| ==> Collected(init, lo, hi, ns[i])
    ensures forall i :: 0 <= i < |Enter(ns, v, lo, hi)| ==> Collected(init + [v], lo, hi, Enter(ns, v, lo, hi)[i])
  {
    assert |Enter(ns, v, lo, hi)| == |ns|;
    forall i | 0 <= i < |ns| ensures Collected(init + [v], lo, hi, Enter(ns, v, lo, hi)[i]) {
      if i == j {
        CollectsHit(init, v, ns, lo, hi, j);
      } else {
        NamesAt(ns, i);
        NamesAt(ns, j);
        CollectsOther(init, v, ns, lo, hi, i);
      }
    }
  }

  lemma EnterMissing(init: seq<Vote>, v: Vote, ns: seq<Nominee>, lo: int, hi: int)
    requires AllConsistent(ns) && Find(Names(ns), v.name).None?
    requires forall x :: x in Names(ns) <==> x in VoteNames(init)
    requires forall i :: 0 <= i < |ns| ==> Collected(init, lo, hi, ns[i])
    ensures forall i :: 0 <= i < |Enter(ns, v, lo, hi)| ==> Collected(init + [v], lo, hi, Enter(ns, v, lo, hi)[i])
  {
    FindMeaning(Names(ns), v.name);
    CollectsNew(init, v, ns, lo, hi);
    forall i | 0 <= i < |ns| ensures Collected(init + [v], lo, hi, Enter(ns, v, lo, hi)[i]) {
      NamesAt(ns, i);
      CollectsOther(init, v, ns, lo, hi, i);
    }
  }

  /** The vote goes to the candidate already stored under its name. */
  lemma CollectsHit(init: seq<Vote>, v: Vote, ns: seq<Nominee>, lo: int, hi: int, j: nat)
    requires AllConsistent(ns) && Find(Names(ns), v.name) == Some(j)
    requires Collected(init, lo, hi, ns[j])
    ensures Collected(init + [v], lo, hi, Enter(ns, v, lo, hi)[j])
  {
    NamesAt(ns, j);
    VotesForSnoc(init, v, v.name);
    CastAllSnoc(NewNominee(v.name, lo, hi), VotesFor(init, v.name), v);
  }

  /** A candidate under another name is left as it was. */
  lemma CollectsOther(init: seq<Vote>, v: Vote, ns: seq<Nominee>, lo: int, hi: int, i: nat)
    requires AllConsistent(ns) && i < |ns| && ns[i].name != v.name
    requires Collected(init, lo, hi, ns[i])
    ensures Collected(init + [v], lo, hi, Enter(ns, v, lo, hi)[i])
  {
    VotesForSnoc(init, v, ns[i].name);
    EnterOther(ns, v, lo, hi, i);
  }

  lemma EnterOther(ns: seq<Nominee>, v: Vote, lo: int, hi: int, i: nat)
    requires AllConsistent(ns) && i < |ns| && ns[i].name != v.name
    ensures i < |Enter(ns, v, lo, hi)| && Enter(ns, v, lo, hi)[i] == ns[i]
  {
    match Find(Names(ns), v.name)
    case Some(j) =>
      NamesAt(ns, j);
    case None =>
  }

  /** A name not yet stored gets a fresh candidate holding just this vote. */
  lemma CollectsNew(init: seq<Vote>, v: Vote, ns: seq<Nominee>, lo: int, hi: int)
    requires AllConsistent(ns) && Find(Names(ns), v.name).None?
    requires forall x :: x in Names(ns) <==> x in VoteNames(init)
    ensures |Enter(ns, v, lo, hi)| == |ns| + 1
    ensures Collected(init + [v], lo, hi, Enter(ns, v, lo, hi)[|ns|])
  {
    FindMeaning(Names(ns), v.name);
    NoVotesFor(init, v.name);
    VotesForSnoc(init, v, v.name);
    CastAllSnoc(NewNominee(v.name, lo, hi), [], v);
    assert [] + [v] == [v];
  }

  // ---- What a candidate holds ----------------------------------------------

  /** The ranks of the votes, in order. */
  function RanksOf(ws: seq<Vote>): (r: seq<int>)
    ensures |r| == |ws|
  {
    if ws == [] then [] else RanksOf(ws[..|ws| - 1]) + [ws[|ws| - 1].rank]
  }

  /** The reasons of the votes with their quotes removed, in order. */
  function ReasonsOf(ws: seq<Vote>): (r: seq<string>)
    ensures |r| == |ws|
  {
    if ws == [] then [] else ReasonsOf(ws[..|ws| - 1]) + [Sanitize(ws[|ws| - 1].reason)]
  }

  /** The examples of the votes with their quotes removed, in order. */
  function ExamplesOf(ws: seq<Vote>): (r: seq<string>)
    ensures |r| == |ws|
  {
    if ws == [] then [] else ExamplesOf(ws[..|ws| - 1]) + [Sanitize(ws[|ws| - 1].example)]
  }

  /** A run of `set_choice` calls records every rank, and appends every
      reason and example, in the order of the calls. */
  lemma CastAllMeaning(n: Nominee, ws: seq<Vote>)
    requires Consistent(n)
    ensures var r := CastAll(n, ws);
      && r.name == n.name
      && r.tally == RecordAll(n.tally, RanksOf(ws))
      && r.reasons == n.reasons + ReasonsOf(ws)
      && r.examples == n.examples + ExamplesOf(ws)
  {
    CastAllTally(n, ws);
    CastAllTexts(n, ws);
  }

  lemma {:induction false} CastAllTally(n: Nominee, ws: seq<Vote>)
    requires Consistent(n)
    ensures CastAll(n, ws).name == n.name
    ensures CastAll(n, ws).tally == RecordAll(n.tally, RanksOf(ws))
  {
    if ws != [] {
      var init, w := ws[..|ws| - 1], ws[|ws| - 1];
      CastAllTally(n, init);
      var r0 := CastAll(n, init);
      assert CastAll(n, ws).tally == Record(r0.tally, w.rank);
      RecordAllSnoc(n.tally, RanksOf(init), w.rank);
    }
  }

  lemma {:induction false} CastAllTexts(n: Nominee, ws: seq<Vote>)
    requires Consistent(n)
    ensures CastAll(n, ws).reasons == n.reasons + ReasonsOf(ws)
    ensures CastAll(n, ws).examples == n.examples + ExamplesOf(ws)
  {
    if ws != [] {
      var init, w := ws[..|ws| - 1], ws[|ws| - 1];
      CastAllTexts(n, init);
      var r0 := CastAll(n, init);
      assert CastAll(n, ws) == Cast(r0, w.rank, w.reason, w.example);
      SnocTexts(n.reasons, ReasonsOf(init), Sanitize(w.reason));
      SnocTexts(n.examples, ExamplesOf(init), Sanitize(w.example));
    }
  }

  lemma SnocTexts(a: seq<string>, b: seq<string>, x: string)
    ensures (a + b) + [x] == a + (b + [x])
  {
  }

  /** What a tallied candidate holds, in terms of the votes for it: its
      Borda score is the points of those votes, its vote count their
      number, and its reasons and examples theirs, quotes removed. */
  lemma CollectedMeaning(vs: seq<Vote>, lo: int, hi: int, n: Nominee)
    requires Collected(vs, lo, hi, n)
    ensures Consistent(n)
    ensures var ws := VotesFor(vs, n.name);
      && n.tally == RecordAll(Fresh(lo, hi), RanksOf(ws))
      && Borda(n.tally) == PointSum(RanksOf(ws), Fresh(lo, hi).rankSize)
      && Tallies.Votes(n.tally) == |ws|
      && n.reasons == ReasonsOf(ws)
      && n.examples == ExamplesOf(ws)
  {
    CastFromFresh(n.name, lo, hi, VotesFor(vs, n.name));
  }

  lemma CastFromFresh(name: string, lo: int, hi: int, ws: seq<Vote>)
    ensures var n := CastAll(NewNominee(name, lo, hi), ws);
      && Consistent(n)
      && n.tally == RecordAll(Fresh(lo, hi), RanksOf(ws))
      && Borda(n.tally) == PointSum(RanksOf(ws), Fresh(lo, hi).rankSize)
      && Tallies.Votes(n.tally) == |ws|
      && n.reasons == ReasonsOf(ws) && n.examples == ExamplesOf(ws)
  {
    var n0 := NewNominee(name, lo, hi);
    CastAllMeaning(n0, ws);
    RecordAllEffect(Fresh(lo, hi), RanksOf(ws));
    EmptyPrefix(ReasonsOf(ws));
    EmptyPrefix(ExamplesOf(ws));
  }

  lemma EmptyPrefix(xs: seq<string>)
    ensures [] + xs == xs
  {
  }

  // ---- Sorting by score (main.py:125-126) ------------------------------------

  /** `get_borda_count()` of each value of a dictionary, in order. */
  function Scores(ns: seq<Nominee>): (r: seq<int>)
    requires AllConsistent(ns)
    ensures |r| == |ns|
  {
    seq(|ns|, i requires 0 <= i < |ns| => Borda(ns[i].tally))
  }

  /** `dict(sorted(d.items(), key=lambda item: item[1].get_borda_count(), reverse=True))`. */
  function Ranked(ns: seq<Nominee>): (r: seq<Nominee>)
    requires AllConsistent(ns)
    ensures |r| == |ns|
  {
    OrderPermutation(Scores(ns));
    Permute(ns, Order(Scores(ns)))
  }

  /** The sorted dictionary holds the same candidates, highest score first,
      and candidates with equal scores in their original order. */
  lemma RankedMeaning(ns: seq<Nominee>)
    requires AllConsistent(ns)
    ensures multiset(Ranked(ns)) == multiset(ns)
    ensures InBounds(Order(Scores(ns)), |ns|)
    ensures forall k :: 0 <= k < |ns| ==> Ranked(ns)[k] == ns[Order(Scores(ns))[k]]
    ensures AllConsistent(Ranked(ns))
    ensures forall a, b :: 0 <= a < b < |ns| ==>
      var x, y := Ranked(ns)[a], Ranked(ns)[b];
      Borda(x.tally) > Borda(y.tally) || (Borda(x.tally) == Borda(y.tally) && Order(Scores(ns))[a] < Order(Scores(ns))[b])
  {
    RankedAt(ns);
    OrderPermutation(Scores(ns));
    PermutePermutes(ns, Order(Scores(ns)));
    RankedDescending(ns);
  }

  lemma RankedAt(ns: seq<Nominee>)
    requires AllConsistent(ns)
    ensures InBounds(Order(Scores(ns)), |ns|)
    ensures forall k :: 0 <= k < |ns| ==> Ranked(ns)[k] == ns[Order(Scores(ns))[k]]
    ensures AllConsistent(Ranked(ns))
  {
    var o := Order(Scores(ns));
    OrderPermutation(Scores(ns));
    forall k | 0 <= k < |ns| ensures Ranked(ns)[k] == ns[o[k]] {
      PermuteAt(ns, o, k);
    }
  }

  lemma RankedDescending(ns: seq<Nominee>)
    requires AllConsistent(ns)
    ensures InBounds(Order(Scores(ns)), |ns|)
    ensures forall a, b :: 0 <= a < b < |ns| ==>
      var x, y := Ranked(ns)[a], Ranked(ns)[b];
      Consistent(x) && Consistent(y) &&
      (Borda(x.tally) > Borda(y.tally) || (Borda(x.tally) == Borda(y.tally) && Order(Scores(ns))[a] < Order(Scores(ns))[b]))
  {
    var keys := Scores(ns);
    var o := Order(keys);
    var r := Ranked(ns);
    RankedAt(ns);
    OrderDescending(keys);
    forall a, b | 0 <= a < b < |ns|
      ensures Consistent(r[a]) && Consistent(r[b])
      ensures Borda(r[a].tally) > Borda(r[b].tally) || (Borda(r[a].tally) == Borda(r[b].tally) && o[a] < o[b])
    {
      assert Key(keys, o[a]) > Key(keys, o[b]) || (Key(keys, o[a]) == Key(keys, o[b]) && o[a] < o[b]);
      assert r[a] == ns[o[a]] && r[b] == ns[o[b]];
      assert Key(keys, o[a]) == Borda(r[a].tally) && Key(keys, o[b]) == Borda(r[b].tally);
    }
  }

  /** Any stable descending sort by score gives exactly `Ranked`. */
  lemma RankedUnique(ns: seq<Nominee>, o: seq<nat>)
    requires AllConsistent(ns)
    requires Descending(Scores(ns), o) && multiset(o) == multiset(Positions(|ns|))
    ensures InBounds(o, |ns|) && Permute(ns, o) == Ranked(ns)
  {
    OrderUnique(Scores(ns), o);
    OrderPermutation(Scores(ns));
  }

  /** Sorting keeps the names, each once. */
  lemma RankedNames(ns: seq<Nominee>)
    requires AllConsistent(ns) && NoDuplicates(Names(ns))
    ensures NoDuplicates(Names(Ranked(ns)))
    ensures forall x :: x in Names(Ranked(ns)) <==> x in Names(ns)
  {
    var keys := Scores(ns);
    var o := Order(keys);
    var r := Ranked(ns);
    OrderPermutation(keys);
    OrderDistinct(keys);
    forall k | 0 <= k < |ns| ensures Names(r)[k] == Names(ns)[o[k]] {
      PermuteAt(ns, o, k);
      NamesAt(r, k);
      NamesAt(ns, o[k]);
    }
    forall a, b | 0 <= a < b < |r| ensures Names(r)[a] != Names(r)[b] {
      assert o[a] != o[b];
    }
    forall x | x in Names(ns) ensures x in Names(r) {
      var i :| 0 <= i < |ns| && Names(ns)[i] == x;
      assert i in o;
      var k :| 0 <= k < |o| && o[k] == i;
      assert Names(r)[k] == x;
    }
  }

  // ---- The top candidates (main.py:144) --------------------------------------

  const TopScore: int := 30

  /** `[x for x in sorted_candidates.items() if x[1].get_borda_count() > 30]`. */
  function Top(ns: seq<Nominee>): (r: seq<Nominee>)
    requires AllConsistent(ns)
    ensures |r| <= |ns|
  {
    if ns == [] then []
    else
      var rest := Top(ns[..|ns| - 1]);
      if Borda(ns[|ns| - 1].tally) > TopScore then rest + [ns[|ns| - 1]] else rest
  }

  /** The positions of the candidates scoring more than 30, in increasing order. */
  function TopPositions(ns: seq<Nominee>): (ix: seq<nat>)
    requires AllConsistent(ns)
    ensures forall k :: 0 <= k < |ix| ==> ix[k] < |ns|
    ensures forall a, b :: 0 <= a < b < |ix| ==> ix[a] < ix[b]
    ensures forall j :: 0 <= j < |ns| ==> (j in ix <==> Borda(ns[j].tally) > TopScore)
  {
    if ns == [] then []
    else
      var init := ns[..|ns| - 1];
      var rest := TopPositions(init);
      assert forall j :: 0 <= j < |init| ==> ns[j] == init[j];
      if Borda(ns[|ns| - 1].tally) > TopScore then rest + [|ns| - 1] else rest
  }

  /** The filter keeps, in their order, exactly the candidates at those
      positions. */
  lemma {:induction false} TopSelects(ns: seq<Nominee>)
    requires AllConsistent(ns)
    ensures |Top(ns)| == |TopPositions(ns)|
    ensures forall k :: 0 <= k < |Top(ns)| ==> Top(ns)[k] == ns[TopPositions(ns)[k]]
  {
    if ns != [] {
      var init, x := ns[..|ns| - 1], ns[|ns| - 1];
      TopSelects(init);
      var t, ix := Top(init), TopPositions(init);
      var extra := if Borda(x.tally) > TopScore then [x] else [];
      var more := if Borda(x.tally) > TopScore then [|ns| - 1] else [];
      assert Top(ns) == t + extra && TopPositions(ns) == ix + more;
      forall k | 0 <= k < |Top(ns)| ensures Top(ns)[k] == ns[TopPositions(ns)[k]] {
        if k < |t| {
          assert Top(ns)[k] == t[k] == init[ix[k]];
          assert TopPositions(ns)[k] == ix[k];
        }
      }
    }
  }

  /** A candidate is a top candidate exactly when it scores more than 30. */
  lemma {:induction false} TopMeaning(ns: seq<Nominee>)
    requires AllConsistent(ns)
    ensures forall x :: x in Top(ns) <==> x in ns && Consistent(x) && Borda(x.tally) > TopScore
  {
    if ns != [] {
      var init := ns[..|ns| - 1];
      TopMeaning(init);
      assert ns == init + [ns[|ns| - 1]];
    }
  }

  /** Scores in descending order, as `Ranked` leaves them. */
  predicate ScoresDescending(ns: seq<Nominee>)
    requires AllConsistent(ns)
  {
    forall a, b :: 0 <= a < b < |ns| ==> Borda(ns[a].tally) >= Borda(ns[b].tally)
  }

  /** Of a sorted dictionary, the top candidates are its leading entries. */
  lemma {:induction false} TopPrefix(ns: seq<Nominee>)
    requires AllConsistent(ns) && ScoresDescending(ns)
    ensures Top(ns) == ns[..|Top(ns)|]
    ensures forall k :: |Top(ns)| <= k < |ns| ==> Borda(ns[k].tally) <= TopScore
  {
    if ns != [] {
      var init, x := ns[..|ns| - 1], ns[|ns| - 1];
      TopPrefix(init);
      if Borda(x.tally) > TopScore {
        TopAll(init);
        assert ns == init + [x];
      } else {
        assert ns[..|Top(ns)|] == init[..|Top(ns)|];
      }
    }
  }

  /** When every score is over 30, every candidate is a top candidate. */
  lemma {:induction false} TopAll(ns: seq<Nominee>)
    requires AllConsistent(ns)
    requires forall k :: 0 <= k < |ns| ==> Borda(ns[k].tally) > TopScore
    ensures Top(ns) == ns
  {
    if ns != [] {
      TopAll(ns[..|ns| - 1]);
      assert ns == ns[..|ns| - 1] + [ns[|ns| - 1]];
    }
  }

  // ---- The whole extraction ----------------------------------------------------

  /** What `extract_data` returns: both dictionaries sorted by score, and the
      suggestions. */
  datatype Extracted = Extracted(candidates: seq<Nominee>, unsuitables: seq<Nominee>, suggestions: seq<string>)

  /** Ranked choices give a candidate `range(1, 6)`; disqualifications give
      an unsuitable candidate `range(1, 3)`. */
  const ChoiceLo: int := 1
  const ChoiceHi: int := 6
  const NoGoLo: int := 1
  const NoGoHi: int := 3

  /** `extract_data(sheet_rows)` (main.py:83-127). */
  function Extract(rows: seq<Option<string>>): (r: Result<Extracted>)
    ensures r.Err? <==> exists i :: 0 <= i < |rows| && ReadRow(rows[i]).Err?
    ensures r.Ok? ==> AllConsistent(r.value.candidates) && AllConsistent(r.value.unsuitables)
  {
    ReadRowsOk(rows);
    match ReadRows(rows)
    case Err(e) => Err(e)
    case Ok(rv) =>
      var cands := Tallied(rv.choices, ChoiceLo, ChoiceHi);
      var unsu := Tallied(rv.noGos, NoGoLo, NoGoHi);
      RankedAt(cands);
      RankedAt(unsu);
      Ok(Extracted(Ranked(cands), Ranked(unsu), rv.suggestions))
  }

  /** What each sorted dictionary holds: every name voted for, once; under
      each name the candidate that received exactly the votes for it, in
      order; highest score first. */
  lemma ExtractMeaning(rows: seq<Option<string>>)
    requires Extract(rows).Ok?
    ensures var rv, e := ReadRows(rows).value, Extract(rows).value;
      && NoDuplicates(Names(e.candidates))
      && (forall x :: x in Names(e.candidates) <==> x in VoteNames(rv.choices))
      && (forall k :: 0 <= k < |e.candidates| ==> Collected(rv.choices, ChoiceLo, ChoiceHi, e.candidates[k]))
      && ScoresDescending(e.candidates)
      && NoDuplicates(Names(e.unsuitables))
      && (forall x :: x in Names(e.unsuitables) <==> x in VoteNames(rv.noGos))
      && (forall k :: 0 <= k < |e.unsuitables| ==> Collected(rv.noGos, NoGoLo, NoGoHi, e.unsuitables[k]))
      && ScoresDescending(e.unsuitables)
      && e.suggestions == rv.suggestions
    ensures Indexable(rows) && Extract(rows).value.suggestions == NonBlank(SuggestionColumnOf(rows))
  {
    var rv := ReadRows(rows).value;
    SuggestionsMeaning(rows);
    DictionaryMeaning(rv.choices, ChoiceLo, ChoiceHi);
    DictionaryMeaning(rv.noGos, NoGoLo, NoGoHi);
  }

  /** One sorted dictionary, as `ExtractMeaning` describes it. */
  lemma DictionaryMeaning(vs: seq<Vote>, lo: int, hi: int)
    ensures var r := Ranked(Tallied(vs, lo, hi));
      && NoDuplicates(Names(r))
      && (forall x :: x in Names(r) <==> x in VoteNames(vs))
      && (forall k :: 0 <= k < |r| ==> Collected(vs, lo, hi, r[k]))
      && AllConsistent(r) && ScoresDescending(r)
  {
    var ns := Tallied(vs, lo, hi);
    var r := Ranked(ns);
    UniqueNames(vs, lo, hi);
    RankedNames(ns);
    TalliedCollects(vs, lo, hi);
    RankedAt(ns);
    RankedDescending(ns);
    forall k | 0 <= k < |r| ensures Collected(vs, lo, hi, r[k]) {
      assert r[k] == ns[Order(Scores(ns))[k]];
    }
  }
}
