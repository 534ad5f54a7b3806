/** `extract_data` (main.py:83-127) over `Candidate` objects: the loop over
    the records, the two loops over the column groups of a record, the
    dictionary updates and the final sorts.  Each dictionary is a list of
    `Candidate` objects that mirrors, entry by entry, the value `Extract`
    computes. */
module Extraction {
  import opened Failures
  import opened Text
  import opened Tallies
  import opened Candidates
  import opened Ranking
  import opened Votes
  import opened Aggregate

  /** What `extract_data` returns: the two sorted dictionaries and the
      suggestions. */
  datatype Output = Output(candidates: seq<Candidate>, unsuitables: seq<Candidate>, suggestions: seq<string>)

  /** `c` is a valid `Candidate` holding `n`: its fields are those of the
      consistent `n`, and its stored score is the score of `n`. */
  ghost predicate Holds(c: Candidate, n: Nominee)
    reads c
  {
    c.Value() == n && Consistent(n) && c.bordaCount == Borda(n.tally)
  }

  /** Entry `i` of `cs` is a valid `Candidate` holding `ns[i]`. */
  ghost predicate Mirrors(cs: seq<Candidate>, ns: seq<Nominee>)
    reads cs
  {
    |cs| == |ns| && forall i :: 0 <= i < |cs| ==> Holds(cs[i], ns[i])
  }

  /** No object is stored under two keys. */
  predicate Distinct(cs: seq<Candidate>) {
    forall a, b :: 0 <= a < b < |cs| ==> cs[a] != cs[b]
  }

  /** The two dictionaries share no object. */
  predicate Apart(cs: seq<Candidate>, us: seq<Candidate>) {
    forall a, b :: 0 <= a < |cs| && 0 <= b < |us| ==> cs[a] != us[b]
  }

  /** The keys of a dictionary of objects. */
  function ObjectNames(cs: seq<Candidate>): (r: seq<string>)
    ensures |r| == |cs|
    ensures forall i :: 0 <= i < |cs| ==> r[i] == cs[i].name
  {
    seq(|cs|, i requires 0 <= i < |cs| => cs[i].name)
  }

  lemma MirrorNames(cs: seq<Candidate>, ns: seq<Nominee>)
    requires Mirrors(cs, ns)
    ensures ObjectNames(cs) == Names(ns)
  {
    forall i | 0 <= i < |cs| ensures ObjectNames(cs)[i] == Names(ns)[i] {
      NamesAt(ns, i);
    }
  }

  /** One vote cast into a dictionary (main.py:101-107, 113-118): looks the
      name up, builds a new `Candidate(name, range(lo, hi))` if it is not
      there, calls `set_choice` on the candidate, and stores it. */
  method CastVote(cs: seq<Candidate>, ghost ns: seq<Nominee>, v: Vote, lo: int, hi: int) returns (cs': seq<Candidate>)
    requires Mirrors(cs, ns) && Distinct(cs) && AllConsistent(ns)
    modifies cs
    ensures Mirrors(cs', Enter(ns, v, lo, hi)) && Distinct(cs')
    ensures cs' == cs || (|cs'| == |cs| + 1 && cs' == cs + [cs'[|cs|]] && fresh(cs'[|cs|]))
  {
    MirrorNames(cs, ns);
    var found := Find(ObjectNames(cs), v.name);
    if found.Some? {
      VoteFound(cs, ns, v, lo, hi, found.value);
      cs' := cs;
    } else {
      cs' := VoteNew(cs, ns, v, lo, hi);
    }
  }

  /** The name is stored already: `set_choice` on its candidate. */
  method VoteFound(cs: seq<Candidate>, ghost ns: seq<Nominee>, v: Vote, lo: int, hi: int, j: nat)
    requires Mirrors(cs, ns) && Distinct(cs) && AllConsistent(ns)
    requires Find(Names(ns), v.name) == Some(j)
    modifies cs
    ensures Mirrors(cs, Enter(ns, v, lo, hi))
  {
    EnterFound(ns, v, lo, hi, j);
    UpdateEntry(cs, ns, v, j);
  }

  /** A new name: a new candidate, given the vote, stored at the end. */
  method VoteNew(cs: seq<Candidate>, ghost ns: seq<Nominee>, v: Vote, lo: int, hi: int) returns (cs': seq<Candidate>)
    requires Mirrors(cs, ns) && Distinct(cs) && AllConsistent(ns)
    requires Find(Names(ns), v.name).None?
    ensures Mirrors(cs', Enter(ns, v, lo, hi)) && Distinct(cs')
    ensures |cs'| == |cs| + 1 && cs' == cs + [cs'[|cs|]] && fresh(cs'[|cs|])
  {
    EnterNew(ns, v, lo, hi);
    var c := NewEntry(v, lo, hi);
    MirrorsSnoc(cs, ns, c, Cast(NewNominee(v.name, lo, hi), v.rank, v.reason, v.example));
    DistinctSnoc(cs, c);
    cs' := cs + [c];
  }

  lemma EnterFound(ns: seq<Nominee>, v: Vote, lo: int, hi: int, j: nat)
    requires AllConsistent(ns) && Find(Names(ns), v.name) == Some(j)
    ensures Consistent(ns[j])
    ensures Enter(ns, v, lo, hi) == ns[j := Cast(ns[j], v.rank, v.reason, v.example)]
  {
  }

  lemma EnterNew(ns: seq<Nominee>, v: Vote, lo: int, hi: int)
    requires AllConsistent(ns) && Find(Names(ns), v.name).None?
    ensures Enter(ns, v, lo, hi) == ns + [Cast(NewNominee(v.name, lo, hi), v.rank, v.reason, v.example)]
  {
  }

  /** `candidate = the_candidates[name]; candidate.set_choice(...)`. */
  method UpdateEntry(cs: seq<Candidate>, ghost ns: seq<Nominee>, v: Vote, j: nat)
    requires Mirrors(cs, ns) && Distinct(cs) && AllConsistent(ns) && j < |cs|
    modifies cs[j]
    ensures Mirrors(cs, ns[j := Cast(ns[j], v.rank, v.reason, v.example)])
  {
    cs[j].SetChoice(v.rank, v.reason, v.example);
    forall i | 0 <= i < |cs| && i != j ensures Holds(cs[i], ns[i]) {
      assert cs[i] != cs[j];
    }
  }

  lemma MirrorsSnoc(cs: seq<Candidate>, ns: seq<Nominee>, c: Candidate, n: Nominee)
    requires Mirrors(cs, ns) && Holds(c, n)
    ensures Mirrors(cs + [c], ns + [n])
  {
    forall i | 0 <= i < |cs| ensures Holds((cs + [c])[i], (ns + [n])[i]) {
      assert (cs + [c])[i] == cs[i] && (ns + [n])[i] == ns[i];
    }
  }

  lemma DistinctSnoc(cs: seq<Candidate>, c: Candidate)
    requires Distinct(cs) && forall i :: 0 <= i < |cs| ==> cs[i] != c
    ensures Distinct(cs + [c])
  {
    var t := cs + [c];
    forall a, b | 0 <= a < b < |t| ensures t[a] != t[b] {
      assert t[a] == cs[a];
      if b < |cs| {
        assert t[b] == cs[b];
      }
    }
  }

  /** `Candidate(name, range(lo, hi))` followed by its first `set_choice`. */
  method NewEntry(v: Vote, lo: int, hi: int) returns (c: Candidate)
    ensures fresh(c) && Holds(c, Cast(NewNominee(v.name, lo, hi), v.rank, v.reason, v.example))
  {
    c := new Candidate(v.name, lo, hi);
    c.SetChoice(v.rank, v.reason, v.example);
  }

  /** `dict(sorted(d.items(), key=lambda item: item[1].get_borda_count(),
      reverse=True))` (main.py:125-126): the scores are read off the
      objects in dictionary order, and the objects are reordered by
      `Order`. */
  method RankEntries(cs: seq<Candidate>, ghost ns: seq<Nominee>) returns (sorted: seq<Candidate>)
    requires Mirrors(cs, ns) && AllConsistent(ns)
    ensures Mirrors(sorted, Ranked(ns))
    ensures multiset(sorted) == multiset(cs)
  {
    var keys: seq<int> := [];
    for k := 0 to |cs|
      invariant |keys| == k
      invariant forall i :: 0 <= i < k ==> keys[i] == Borda(ns[i].tally)
    {
      keys := keys + [cs[k].GetBordaCount()];
    }
    assert keys == Scores(ns);
    OrderPermutation(keys);
    var o := Order(keys);
    sorted := Permute(cs, o);
    PermutePermutes(cs, o);
    RankedAt(ns);
    forall k | 0 <= k < |sorted| ensures Holds(sorted[k], Ranked(ns)[k]) {
      PermuteAt(cs, o, k);
    }
  }

  /** `extract_data(sheet_rows)` (main.py:83-127). */
  method ExtractData(rows: seq<Option<string>>) returns (r: Result<Output>)
    ensures r.Err? <==> Extract(rows).Err?
    ensures r.Err? ==> r.error == Extract(rows).error
    ensures r.Ok? ==> Mirrors(r.value.candidates, Extract(rows).value.candidates)
    ensures r.Ok? ==> Mirrors(r.value.unsuitables, Extract(rows).value.unsuitables)
    ensures r.Ok? ==> r.value.suggestions == Extract(rows).value.suggestions
  {
    var collected := CollectRecords(rows);
    if collected.Err? {
      return Err(collected.error);
    }
    ghost var rv := ReadRows(rows).value;
    var sortedCands := RankEntries(collected.value.candidates, Tallied(rv.choices, ChoiceLo, ChoiceHi));
    var sortedUnsu := RankEntries(collected.value.unsuitables, Tallied(rv.noGos, NoGoLo, NoGoHi));
    r := Ok(Output(sortedCands, sortedUnsu, collected.value.suggestions));
  }

  /** The loop of `extract_data` over the records (main.py:88-122): the
      two dictionaries, unsorted, and the suggestions. */
  method CollectRecords(rows: seq<Option<string>>) returns (r: Result<Output>)
    ensures r.Err? <==> ReadRows(rows).Err?
    ensures r.Err? ==> r.error == ReadRows(rows).error
    ensures r.Ok? ==> Mirrors(r.value.candidates, Tallied(ReadRows(rows).value.choices, ChoiceLo, ChoiceHi))
    ensures r.Ok? ==> Mirrors(r.value.unsuitables, Tallied(ReadRows(rows).value.noGos, NoGoLo, NoGoHi))
    ensures r.Ok? ==> r.value.suggestions == ReadRows(rows).value.suggestions
  {
    var cands: seq<Candidate> := [];
    var unsu: seq<Candidate> := [];
    var suggestions: seq<string> := [];
    ghost var rv := RowVotes([], [], []);
    for i := 0 to |rows|
      invariant ReadRows(rows[..i]) == Ok(rv)
      invariant Mirrors(cands, Tallied(rv.choices, ChoiceLo, ChoiceHi)) && Distinct(cands)
      invariant Mirrors(unsu, Tallied(rv.noGos, NoGoLo, NoGoHi)) && Distinct(unsu)
      invariant Apart(cands, unsu)
      invariant forall i :: 0 <= i < |cands| ==> fresh(cands[i])
      invariant forall i :: 0 <= i < |unsu| ==> fresh(unsu[i])
      invariant suggestions == rv.suggestions
    {
      ReadRowsSnoc(rows, i);
      var row := rows[i];
      if row.None? {
        StopsWhole(rows, i + 1);
        return Err(AttributeError);
      }
      var parts := Split(row.value, '\t');
      if |parts| < FieldCount {
        StopsWhole(rows, i + 1);
        return Err(IndexError);
      }
      cands, unsu := CastRecord(cands, unsu, rv, parts);
      var suggestion := Suggestion(parts);
      if suggestion.Some? {
        suggestions := suggestions + [suggestion.value];
      }
      rv := RowVotes(rv.choices + ChoicesUpTo(parts, |ChoiceColumns|), rv.noGos + NoGosUpTo(parts, |NoGoColumns|), rv.suggestions + AsSeq(suggestion));
    }
    WholeRows(rows);
    r := Ok(Output(cands, unsu, suggestions));
  }

  /** The ranked choices, then the disqualifications, of one record
      (main.py:92-118). */
  method CastRecord(cands: seq<Candidate>, unsu: seq<Candidate>, ghost rv: RowVotes, parts: seq<string>)
    returns (cands': seq<Candidate>, unsu': seq<Candidate>)
    requires |parts| >= FieldCount
    requires Mirrors(cands, Tallied(rv.choices, ChoiceLo, ChoiceHi)) && Distinct(cands)
    requires Mirrors(unsu, Tallied(rv.noGos, NoGoLo, NoGoHi)) && Distinct(unsu)
    requires Apart(cands, unsu)
    modifies cands, unsu
    ensures Mirrors(cands', Tallied(rv.choices + ChoicesUpTo(parts, |ChoiceColumns|), ChoiceLo, ChoiceHi)) && Distinct(cands')
    ensures Mirrors(unsu', Tallied(rv.noGos + NoGosUpTo(parts, |NoGoColumns|), NoGoLo, NoGoHi)) && Distinct(unsu')
    ensures Apart(cands', unsu')
    ensures forall i :: 0 <= i < |cands'| ==> cands'[i] in cands || fresh(cands'[i])
    ensures forall i :: 0 <= i < |unsu'| ==> unsu'[i] in unsu || fresh(unsu'[i])
  {
    cands' := CastChoices(cands, unsu, rv.choices, parts);
    ApartFlip(cands', unsu);
    unsu' := CastNoGos(unsu, cands', rv.noGos, parts);
    ApartFlip(unsu', cands');
  }

  /** The four ranked choices of one record (main.py:92-107). */
  method CastChoices(cands: seq<Candidate>, unsu: seq<Candidate>, ghost before: seq<Vote>, parts: seq<string>)
    returns (cands': seq<Candidate>)
    requires |parts| >= FieldCount
    requires Mirrors(cands, Tallied(before, ChoiceLo, ChoiceHi)) && Distinct(cands) && Apart(cands, unsu)
    modifies cands
    ensures Mirrors(cands', Tallied(before + ChoicesUpTo(parts, |ChoiceColumns|), ChoiceLo, ChoiceHi))
    ensures Distinct(cands') && Apart(cands', unsu)
    ensures forall i :: 0 <= i < |cands'| ==> cands'[i] in cands || fresh(cands'[i])
  {
    cands' := cands;
    ghost var sofar := before;
    assert before + ChoicesUpTo(parts, 0) == before;
    for idx := 0 to |ChoiceColumns|
      invariant sofar == before + ChoicesUpTo(parts, idx)
      invariant Mirrors(cands', Tallied(sofar, ChoiceLo, ChoiceHi)) && Distinct(cands') && Apart(cands', unsu)
      invariant forall i :: 0 <= i < |cands'| ==> cands'[i] in cands || fresh(cands'[i])
    {
      var vote := ChoiceVote(parts, idx);
      cands' := CastOne(cands', unsu, sofar, vote, ChoiceLo, ChoiceHi);
      ChoiceStep(before, parts, idx);
      sofar := sofar + AsSeq(vote);
    }
  }

  /** The two disqualifications of one record (main.py:110-118). */
  method CastNoGos(unsu: seq<Candidate>, cands: seq<Candidate>, ghost before: seq<Vote>, parts: seq<string>)
    returns (unsu': seq<Candidate>)
    requires |parts| >= FieldCount
    requires Mirrors(unsu, Tallied(before, NoGoLo, NoGoHi)) && Distinct(unsu) && Apart(unsu, cands)
    modifies unsu
    ensures Mirrors(unsu', Tallied(before + NoGosUpTo(parts, |NoGoColumns|), NoGoLo, NoGoHi))
    ensures Distinct(unsu') && Apart(unsu', cands)
    ensures forall i :: 0 <= i < |unsu'| ==> unsu'[i] in unsu || fresh(unsu'[i])
  {
    unsu' := unsu;
    ghost var sofar := before;
    assert before + NoGosUpTo(parts, 0) == before;
    for idx := 0 to |NoGoColumns|
      invariant sofar == before + NoGosUpTo(parts, idx)
      invariant Mirrors(unsu', Tallied(sofar, NoGoLo, NoGoHi)) && Distinct(unsu') && Apart(unsu', cands)
      invariant forall i :: 0 <= i < |unsu'| ==> unsu'[i] in unsu || fresh(unsu'[i])
    {
      var vote := NoGoVote(parts, idx);
      unsu' := CastOne(unsu', cands, sofar, vote, NoGoLo, NoGoHi);
      NoGoStep(before, parts, idx);
      sofar := sofar + AsSeq(vote);
    }
  }

  lemma ChoiceStep(before: seq<Vote>, parts: seq<string>, idx: nat)
    requires |parts| >= FieldCount && idx < |ChoiceColumns|
    ensures before + ChoicesUpTo(parts, idx + 1) == before + ChoicesUpTo(parts, idx) + AsSeq(ChoiceVote(parts, idx))
  {
    var a, b := ChoicesUpTo(parts, idx), AsSeq(ChoiceVote(parts, idx));
    assert ChoicesUpTo(parts, idx + 1) == a + b;
    assert before + (a + b) == before + a + b;
  }

  lemma NoGoStep(before: seq<Vote>, parts: seq<string>, idx: nat)
    requires |parts| >= FieldCount && idx < |NoGoColumns|
    ensures before + NoGosUpTo(parts, idx + 1) == before + NoGosUpTo(parts, idx) + AsSeq(NoGoVote(parts, idx))
  {
    var a, b := NoGosUpTo(parts, idx), AsSeq(NoGoVote(parts, idx));
    assert NoGosUpTo(parts, idx + 1) == a + b;
    assert before + (a + b) == before + a + b;
  }

  /** One group of a record: a vote, if the group holds a name, cast into
      the dictionary `xs`, which shares no object with `other`. */
  method CastOne(xs: seq<Candidate>, ghost other: seq<Candidate>, ghost sofar: seq<Vote>, vote: Option<Vote>, lo: int, hi: int)
    returns (xs': seq<Candidate>)
    requires Mirrors(xs, Tallied(sofar, lo, hi)) && Distinct(xs) && Apart(xs, other)
    modifies xs
    ensures Mirrors(xs', Tallied(sofar + AsSeq(vote), lo, hi)) && Distinct(xs') && Apart(xs', other)
    ensures xs' == xs || (|xs'| == |xs| + 1 && xs' == xs + [xs'[|xs|]] && fresh(xs'[|xs|]))
  {
    if vote.Some? {
      xs' := CastVote(xs, Tallied(sofar, lo, hi), vote.value, lo, hi);
      TalliedSnoc(sofar, vote.value, lo, hi);
      if xs' != xs {
        ApartSnoc(xs, other, xs'[|xs|]);
      }
    } else {
      xs' := xs;
      assert sofar + AsSeq(vote) == sofar;
    }
  }

  /** An object allocated after every object of `other` keeps `xs + [c]`
      apart from `other`. */
  lemma ApartSnoc(xs: seq<Candidate>, other: seq<Candidate>, c: Candidate)
    requires Apart(xs, other) && c !in other
    ensures Apart(xs + [c], other)
  {
    var t := xs + [c];
    forall a, b | 0 <= a < |t| && 0 <= b < |other| ensures t[a] != other[b] {
      if a < |xs| {
        assert t[a] == xs[a];
      }
    }
  }

  lemma ApartFlip(xs: seq<Candidate>, ys: seq<Candidate>)
    requires Apart(xs, ys)
    ensures Apart(ys, xs)
  {
  }
}
