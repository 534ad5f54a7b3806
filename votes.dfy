/** How `extract_data` reads the votes out of each record (main.py:88-122):
    the record is split at tabs, and fixed columns hold the four ranked
    choices (with a reason and an example each), the two disqualifications
    (with a reason each) and a suggestion.  Here the columns of every
    record are turned into the list of votes the loop casts, in the order
    it casts them. */
module Votes {
  import opened Failures
  import opened Text

  /** The name columns of the four ranked choices; the reason and the example
      for a choice are the two columns after its name (main.py:92). */
  const ChoiceColumns: seq<nat> := [1, 4, 7, 10]

  /** The name columns of the two disqualifications; the reason is the
      column after the name (main.py:110). */
  const NoGoColumns: seq<nat> := [13, 15]

  const SuggestionColumn: nat := 17

  /** Every record is indexed up to the suggestion column, so fewer fields
      than this raise IndexError. */
  const FieldCount: nat := 18

  const FifthChoice: string := "5th choice"

  /** One `set_choice(rank, reason, example)` call on the candidate `name`. */
  datatype Vote = Vote(name: string, rank: int, reason: string, example: string)

  /** What one record contributes: the ranked votes, the disqualifying
      votes and the suggestions, each in column order. */
  datatype RowVotes = RowVotes(choices: seq<Vote>, noGos: seq<Vote>, suggestions: seq<string>)

  /** A name starting with "5th choice" holds a space, so splitting it at
      spaces gives at least two fields. */
  lemma FifthChoiceFields(name: string)
    requires StartsWith(name, FifthChoice)
    ensures |Split(name, ' ')| >= 2
  {
    assert name[3] == FifthChoice[3] == ' ';
    assert ' ' in multiset(name);
    SplitCount(name, ' ');
  }

  /** `f'{fifth[-2]} {fifth[-1]}'` with `fifth = name.split(' ')` (main.py:96-97). */
  function FifthChoiceName(name: string): (r: string)
    requires StartsWith(name, FifthChoice)
    ensures ' ' in r
  {
    FifthChoiceFields(name);
    var fifth := Split(name, ' ');
    var r := fifth[|fifth| - 2] + " " + fifth[|fifth| - 1];
    assert r[|fifth[|fifth| - 2]|] == ' ';
    r
  }

  /** A "5th choice" entry ending in two words names the candidate by
      those two words, whatever stands between "5th choice" and them. */
  lemma FifthChoiceLastTwo(p: string, a: string, b: string)
    requires StartsWith(p, FifthChoice) && ' ' !in a && ' ' !in b
    ensures StartsWith(p + " " + a + " " + b, FifthChoice)
    ensures FifthChoiceName(p + " " + a + " " + b) == a + " " + b
  {
    var s := p + " " + a + " " + b;
    assert s[..|FifthChoice|] == p[..|FifthChoice|];
    assert s == p + [' '] + (a + [' '] + b);
    SplitAround(p, a + [' '] + b, ' ');
    SplitAround(a, b, ' ');
    SplitNoSeparator(a, ' ');
    SplitNoSeparator(b, ' ');
    var fifth := Split(s, ' ');
    assert fifth == Split(p, ' ') + [a] + [b];
    assert fifth[|fifth| - 2] == a && fifth[|fifth| - 1] == b;
  }

  /** The vote in choice group `idx` of a record, if its name is not blank
      (main.py:92-105): a "5th choice" entry votes at rank 5 for the last two
      words of the entry; any other entry votes at the group's own rank 1-4. */
  function ChoiceVote(parts: seq<string>, idx: nat): (v: Option<Vote>)
    requires |parts| >= FieldCount && idx < |ChoiceColumns|
    ensures v.None? <==> Strip(parts[ChoiceColumns[idx]]) == []
    ensures v.Some? ==> 1 <= v.value.rank <= 5 && v.value.name != []
    ensures v.Some? ==> v.value.reason == parts[ChoiceColumns[idx] + 1] && v.value.example == parts[ChoiceColumns[idx] + 2]
    ensures v.Some? ==>
      var name := Strip(parts[ChoiceColumns[idx]]);
      if StartsWith(name, FifthChoice) then v.value.rank == 5 && v.value.name == FifthChoiceName(name)
      else v.value.rank == idx + 1 && v.value.name == name
  {
    var col := ChoiceColumns[idx];
    var name := Strip(parts[col]);
    if |name| == 0 then None
    else if StartsWith(name, FifthChoice) then Some(Vote(FifthChoiceName(name), 5, parts[col + 1], parts[col + 2]))
    else Some(Vote(name, idx + 1, parts[col + 1], parts[col + 2]))
  }

  /** The disqualifying vote in column group `idx` (main.py:110-118): none if
      the stripped name is blank or is "none" in any letter case; otherwise a
      vote at rank 1 or 2 with the following column as reason and no example. */
  function NoGoVote(parts: seq<string>, idx: nat): (v: Option<Vote>)
    requires |parts| >= FieldCount && idx < |NoGoColumns|
    ensures v.None? <==> (Strip(parts[NoGoColumns[idx]]) == [] || IsNoneWord(Strip(parts[NoGoColumns[idx]])))
    ensures v.Some? ==> v.value == Vote(Strip(parts[NoGoColumns[idx]]), idx + 1, parts[NoGoColumns[idx] + 1], [])
  {
    var col := NoGoColumns[idx];
    var noGo := Strip(parts[col]);
    if noGo != [] && !IsNoneWord(noGo) then Some(Vote(noGo, idx + 1, parts[col + 1], [])) else None
  }

  /** The suggestion of a record, if its stripped column is not blank
      (main.py:120-122); it is kept as it is, quotes included. */
  function Suggestion(parts: seq<string>): (s: Option<string>)
    requires |parts| >= FieldCount
    ensures s.Some? <==> Strip(parts[SuggestionColumn]) != []
    ensures s.Some? ==> s.value == Strip(parts[SuggestionColumn])
  {
    var suggestion := Strip(parts[SuggestionColumn]);
    if suggestion != [] then Some(suggestion) else None
  }

  function AsSeq<T>(o: Option<T>): (r: seq<T>)
    ensures |r| <= 1
  {
    if o.Some? then [o.value] else []
  }

  /** The votes of the first `k` choice groups. */
  function ChoicesUpTo(parts: seq<string>, k: nat): (r: seq<Vote>)
    requires |parts| >= FieldCount && k <= |ChoiceColumns|
    ensures |r| <= k
  {
    if k == 0 then [] else ChoicesUpTo(parts, k - 1) + AsSeq(ChoiceVote(parts, k - 1))
  }

  /** The votes of the first `k` disqualification groups. */
  function NoGosUpTo(parts: seq<string>, k: nat): (r: seq<Vote>)
    requires |parts| >= FieldCount && k <= |NoGoColumns|
    ensures |r| <= k
  {
    if k == 0 then [] else NoGosUpTo(parts, k - 1) + AsSeq(NoGoVote(parts, k - 1))
  }

  /** One record of `parse_spreadsheet`'s result as `extract_data` reads it:
      a missing record (`None`) raises AttributeError at `row.split`; a
      record with fewer than 18 fields raises IndexError, because column 17
      is read whatever the other columns hold. */
  function ReadRow(row: Option<string>): (r: Result<RowVotes>)
    ensures r == Err(AttributeError) <==> row.None?
    ensures r == Err(IndexError) <==> row.Some? && |Split(row.value, '\t')| < FieldCount
    ensures r.Ok? ==> |r.value.choices| <= |ChoiceColumns| && |r.value.noGos| <= |NoGoColumns| && |r.value.suggestions| <= 1
  {
    if row.None? then Err(AttributeError)
    else
      var parts := Split(row.value, '\t');
      if |parts| < FieldCount then Err(IndexError)
      else Ok(RowVotes(ChoicesUpTo(parts, |ChoiceColumns|), NoGosUpTo(parts, |NoGoColumns|), AsSeq(Suggestion(parts))))
  }

  /** The votes and suggestions of all records, in record order, or the
      error of the first record that raises one. */
  function ReadRows(rows: seq<Option<string>>): Result<RowVotes> {
    if rows == [] then Ok(RowVotes([], [], []))
    else
      match ReadRows(rows[..|rows| - 1])
      case Err(e) => Err(e)
      case Ok(before) =>
        match ReadRow(rows[|rows| - 1])
        case Err(e) => Err(e)
        case Ok(row) => Ok(RowVotes(before.choices + row.choices, before.noGos + row.noGos, before.suggestions + row.suggestions))
  }

  /** Reading one more record after a good prefix. */
  lemma ReadRowsSnoc(rows: seq<Option<string>>, i: nat)
    requires i < |rows|
    ensures ReadRows(rows[..i + 1]) ==
      match ReadRows(rows[..i])
      case Err(e) => Err(e)
      case Ok(before) =>
        match ReadRow(rows[i])
        case Err(e) => Err(e)
        case Ok(row) => Ok(RowVotes(before.choices + row.choices, before.noGos + row.noGos, before.suggestions + row.suggestions))
  {
    var p := rows[..i + 1];
    assert p[..|p| - 1] == rows[..i] && p[|p| - 1] == rows[i];
  }

  /** Once a record raises an error, the whole extraction raises it: no
      later record is looked at. */
  lemma {:induction false} ReadRowsStops(rows: seq<Option<string>>, i: nat, n: nat)
    requires i <= n <= |rows|
    requires ReadRows(rows[..i]).Err?
    ensures ReadRows(rows[..n]) == ReadRows(rows[..i])
    decreases n - i
  {
    if n > i {
      ReadRowsStops(rows, i, n - 1);
      ReadRowsSnoc(rows, n - 1);
    }
  }

  /** A prefix that raises decides the result of the whole extraction. */
  lemma StopsWhole(rows: seq<Option<string>>, i: nat)
    requires i <= |rows| && ReadRows(rows[..i]).Err?
    ensures ReadRows(rows) == ReadRows(rows[..i])
  {
    ReadRowsStops(rows, i, |rows|);
    WholeRows(rows);
  }

  lemma WholeRows(rows: seq<Option<string>>)
    ensures rows[..|rows|] == rows
  {
  }

  /** Every ranked vote is at a rank of 1 to 5, and every disqualifying
      vote at rank 1 or 2, so each lands in its candidate's rank range. */
  lemma {:induction false} RanksInRange(rows: seq<Option<string>>)
    requires ReadRows(rows).Ok?
    ensures forall k :: 0 <= k < |ReadRows(rows).value.choices| ==> 1 <= ReadRows(rows).value.choices[k].rank <= 5
    ensures forall k :: 0 <= k < |ReadRows(rows).value.noGos| ==> 1 <= ReadRows(rows).value.noGos[k].rank <= 2
  {
    if rows != [] {
      var init := rows[..|rows| - 1];
      RanksInRange(init);
      var before := ReadRows(init).value;
      var parts := Split(rows[|rows| - 1].value, '\t');
      ChoiceRanks(parts, |ChoiceColumns|);
      NoGoRanks(parts, |NoGoColumns|);
      var row := ReadRow(rows[|rows| - 1]).value;
      var all := ReadRows(rows).value;
      forall k | 0 <= k < |all.choices| ensures 1 <= all.choices[k].rank <= 5 {
        if k < |before.choices| {
          assert all.choices[k] == before.choices[k];
        } else {
          assert all.choices[k] == row.choices[k - |before.choices|];
        }
      }
      forall k | 0 <= k < |all.noGos| ensures 1 <= all.noGos[k].rank <= 2 {
        if k < |before.noGos| {
          assert all.noGos[k] == before.noGos[k];
        } else {
          assert all.noGos[k] == row.noGos[k - |before.noGos|];
        }
      }
    }
  }

  lemma {:induction false} ChoiceRanks(parts: seq<string>, k: nat)
    requires |parts| >= FieldCount && k <= |ChoiceColumns|
    ensures forall j :: 0 <= j < |ChoicesUpTo(parts, k)| ==> 1 <= ChoicesUpTo(parts, k)[j].rank <= 5
  {
    if k > 0 {
      ChoiceRanks(parts, k - 1);
      var before, cur := ChoicesUpTo(parts, k - 1), ChoicesUpTo(parts, k);
      var extra := AsSeq(ChoiceVote(parts, k - 1));
      assert cur == before + extra;
      forall j | 0 <= j < |cur| ensures 1 <= cur[j].rank <= 5 {
        if j < |before| {
          assert cur[j] == before[j];
        } else {
          assert cur[j] == extra[j - |before|];
        }
      }
    }
  }

  lemma {:induction false} NoGoRanks(parts: seq<string>, k: nat)
    requires |parts| >= FieldCount && k <= |NoGoColumns|
    ensures forall j :: 0 <= j < |NoGosUpTo(parts, k)| ==> 1 <= NoGosUpTo(parts, k)[j].rank <= 2
  {
    if k > 0 {
      NoGoRanks(parts, k - 1);
      var before, cur := NoGosUpTo(parts, k - 1), NoGosUpTo(parts, k);
      var extra := AsSeq(NoGoVote(parts, k - 1));
      assert cur == before + extra;
      forall j | 0 <= j < |cur| ensures 1 <= cur[j].rank <= 2 {
        if j < |before| {
          assert cur[j] == before[j];
        } else {
          assert cur[j] == extra[j - |before|];
        }
      }
    }
  }

  /** The extraction fails exactly when some record fails, and then with
      the error of the first record that fails. */
  lemma {:induction false} ReadRowsOk(rows: seq<Option<string>>)
    ensures ReadRows(rows).Ok? <==> forall i :: 0 <= i < |rows| ==> ReadRow(rows[i]).Ok?
  {
    if rows != [] {
      var init, last := rows[..|rows| - 1], rows[|rows| - 1];
      ReadRowsOk(init);
      ReadRowsStep(rows);
      if ReadRows(rows).Ok? {
        forall i | 0 <= i < |rows| ensures ReadRow(rows[i]).Ok? {
          if i < |init| {
            assert rows[i] == init[i];
          } else {
            assert i == |rows| - 1 && rows[i] == last;
          }
        }
      } else if ReadRow(last).Ok? {
        var i :| 0 <= i < |init| && ReadRow(init[i]).Err?;
        assert rows[i] == init[i];
      }
    }
  }

  lemma ReadRowsStep(rows: seq<Option<string>>)
    requires rows != []
    ensures ReadRows(rows).Ok? <==> ReadRows(rows[..|rows| - 1]).Ok? && ReadRow(rows[|rows| - 1]).Ok?
  {
  }

  lemma {:induction false} ReadRowsFirstError(rows: seq<Option<string>>, i: nat)
    requires i < |rows|
    requires forall k :: 0 <= k < i ==> ReadRow(rows[k]).Ok?
    requires ReadRow(rows[i]).Err?
    ensures ReadRows(rows) == Err(ReadRow(rows[i]).error)
    decreases |rows|
  {
    var init := rows[..|rows| - 1];
    if i == |rows| - 1 {
      PrefixOk(rows, i);
      assert rows[..i] == init;
    } else {
      forall k | 0 <= k < i ensures ReadRow(init[k]).Ok? {
        assert init[k] == rows[k];
      }
      assert init[i] == rows[i];
      ReadRowsFirstError(init, i);
    }
  }

  lemma PrefixOk(rows: seq<Option<string>>, i: nat)
    requires i <= |rows|
    requires forall k :: 0 <= k < i ==> ReadRow(rows[k]).Ok?
    ensures ReadRows(rows[..i]).Ok?
  {
    var pre := rows[..i];
    forall k | 0 <= k < |pre| ensures ReadRow(pre[k]).Ok? {
      assert pre[k] == rows[k];
    }
    ReadRowsOk(pre);
  }

  // ---- The suggestions -----------------------------------------------------

  /** Every record is present and has a suggestion column. */
  predicate Indexable(rows: seq<Option<string>>) {
    forall i :: 0 <= i < |rows| ==> rows[i].Some? && |Split(rows[i].value, '\t')| >= FieldCount
  }

  /** The stripped suggestion column of every record, in record order. */
  function SuggestionColumnOf(rows: seq<Option<string>>): (r: seq<string>)
    requires Indexable(rows)
    ensures |r| == |rows|
  {
    if rows == [] then []
    else SuggestionColumnOf(rows[..|rows| - 1]) + [Strip(Split(rows[|rows| - 1].value, '\t')[SuggestionColumn])]
  }

  /** The non-blank strings of `ss`, in order. */
  function NonBlank(ss: seq<string>): (r: seq<string>)
    ensures forall i :: 0 <= i < |r| ==> r[i] != []
    ensures forall x :: x in r <==> x in ss && x != []
  {
    if ss == [] then []
    else NonBlank(ss[..|ss| - 1]) + (if ss[|ss| - 1] != [] then [ss[|ss| - 1]] else [])
  }

  /** When the records read, each is present with a suggestion column, and
      the suggestions are the non-blank stripped suggestion columns, in
      record order (main.py:120-122). */
  lemma {:induction false} SuggestionsMeaning(rows: seq<Option<string>>)
    requires ReadRows(rows).Ok?
    ensures Indexable(rows)
    ensures ReadRows(rows).value.suggestions == NonBlank(SuggestionColumnOf(rows))
  {
    if rows != [] {
      var init, last := rows[..|rows| - 1], rows[|rows| - 1];
      ReadRowsStep(rows);
      SuggestionsMeaning(init);
      var row := ReadRow(last);
      assert row.Ok?;
      IndexableSnoc(rows);
      var parts := Split(last.value, '\t');
      assert row.value.suggestions == AsSeq(Suggestion(parts));
      var col := SuggestionColumnOf(rows);
      assert col[..|col| - 1] == SuggestionColumnOf(init);
      assert col[|col| - 1] == Strip(parts[SuggestionColumn]);
    }
  }

  lemma IndexableSnoc(rows: seq<Option<string>>)
    requires rows != [] && Indexable(rows[..|rows| - 1])
    requires rows[|rows| - 1].Some? && |Split(rows[|rows| - 1].value, '\t')| >= FieldCount
    ensures Indexable(rows)
  {
    forall i | 0 <= i < |rows| ensures rows[i].Some? && |Split(rows[i].value, '\t')| >= FieldCount {
      if i < |rows| - 1 {
        assert rows[i] == rows[..|rows| - 1][i];
      }
    }
  }
}
