/** `parse_spreadsheet` (main.py:60-80): rebuilding one record per survey
    response from the lines of the exported file.  Reading the file is left
    out; the model starts from its lines, as `readlines()` returns them. */
module Spreadsheet {
  import opened Failures
  import opened Text
  import opened Timestamp

  /** Every line stripped, as the loop of main.py:71 does one line at a time. */
  function StripAll(lines: seq<string>): (r: seq<string>)
    ensures |r| == |lines|
  {
    if lines == [] then [] else StripAll(lines[..|lines| - 1]) + [Strip(lines[|lines| - 1])]
  }

  lemma {:induction false} StripAllAt(lines: seq<string>, i: nat)
    requires i < |lines|
    ensures StripAll(lines)[i] == Strip(lines[i])
  {
    if i < |lines| - 1 {
      StripAllAt(lines[..|lines| - 1], i);
    }
  }

  /** The lines of each record, taking the lines in order: a timestamp line
      opens a new group, any other line joins the group before it (the very
      first line opens one whatever it is). */
  function Groups(ss: seq<string>): (gs: seq<seq<string>>)
    ensures ss == [] <==> gs == []
  {
    if ss == [] then []
    else
      var gs := Groups(ss[..|ss| - 1]);
      var x := ss[|ss| - 1];
      if IsTimestampLine(x) || gs == [] then gs + [[x]]
      else gs[..|gs| - 1] + [gs[|gs| - 1] + [x]]
  }

  /** Each group of lines concatenated with no separator, as `new_row +=
      line` does. */
  function Joined(gs: seq<seq<string>>): (r: seq<string>)
    ensures |r| == |gs|
  {
    if gs == [] then [] else Joined(gs[..|gs| - 1]) + [Concat(gs[|gs| - 1])]
  }

  /** The records of the stripped lines `ss`. */
  function Records(ss: seq<string>): (r: seq<string>)
    ensures |r| == |Groups(ss)|
  {
    Joined(Groups(ss))
  }

  /** The records as the list the function returns, each one present. */
  function Present(rs: seq<string>): (r: seq<Option<string>>)
    ensures |r| == |rs|
  {
    if rs == [] then [] else Present(rs[..|rs| - 1]) + [Some(rs[|rs| - 1])]
  }

  lemma {:induction false} PresentAt(rs: seq<string>, i: nat)
    requires i < |rs|
    ensures Present(rs)[i] == Some(rs[i])
  {
    if i < |rs| - 1 {
      PresentAt(rs[..|rs| - 1], i);
    }
  }

  /** What `parse_spreadsheet` returns for a file with these lines: the
      header line is dropped; a file with no line after it gives `[None]`;
      a first line after the header that is not a timestamp line raises
      TypeError (`None += str`); otherwise the records of the stripped lines. */
  function Reconstruct(lines: seq<string>): Result<seq<Option<string>>> {
    if |lines| <= 1 then Ok([None])
    else
      var body := StripAll(lines[1..]);
      if !IsTimestampLine(body[0]) then Err(TypeError)
      else Ok(Present(Records(body)))
  }

  /** `parse_spreadsheet(sheet_file)` on the lines of the file (main.py:60-80). */
  method ParseSpreadsheet(lines: seq<string>) returns (r: Result<seq<Option<string>>>)
    ensures r == Reconstruct(lines)
  {
    var rows: seq<Option<string>> := [];
    var newRow: Option<string> := None;
    var headerDone := false;
    ghost var body: seq<string> := [];
    for i := 0 to |lines|
      invariant headerDone <==> i > 0
      invariant i > 0 ==> body == StripAll(lines[1..i])
      invariant i <= 1 ==> body == []
      invariant body == [] ==> newRow == None && rows == []
      invariant body != [] ==> Tracks(body, rows, newRow)
    {
      var line := lines[i];
      if !headerDone {
        headerDone := true;
        StripAllEmpty(lines);
      } else {
        StripAllSnoc(lines, i);
        var failed;
        rows, newRow, failed := ReadLine(body, rows, newRow, line);
        if failed {
          ReconstructTypeError(lines);
          return Err(TypeError);
        }
        body := body + [Strip(line)];
      }
    }
    if body != [] {
      TracksFinal(body, rows, newRow);
    }
    rows := rows + [newRow];
    ReconstructFinal(lines, body, rows);
    return Ok(rows);
  }

  /** One line after the header (main.py:68-77): a timestamp line finishes
      the record being built and starts the next; any other line is appended
      to the record being built, which raises TypeError before the first
      record has started.  `body` are the stripped lines read before. */
  method ReadLine(ghost body: seq<string>, rows: seq<Option<string>>, newRow: Option<string>, line: string)
    returns (rows': seq<Option<string>>, newRow': Option<string>, failed: bool)
    requires body == [] ==> newRow == None && rows == []
    requires body != [] ==> Tracks(body, rows, newRow)
    ensures failed <==> body == [] && !IsTimestampLine(Strip(line))
    ensures !failed ==> Tracks(body + [Strip(line)], rows', newRow')
  {
    var stripped := Strip(line);
    rows', newRow', failed := rows, newRow, false;
    if IsTimestampLine(stripped) {
      if newRow.Some? {
        TracksOpen(body, rows, newRow, stripped);
        rows' := rows + [newRow];
      } else {
        TracksFirst(stripped);
      }
      newRow' := Some(stripped);
    } else {
      if newRow.None? {
        failed := true;
        return;
      }
      TracksContinue(body, rows, newRow, stripped);
      newRow' := Some(newRow.value + stripped);
    }
  }

  /** The loop state of `parse_spreadsheet` after the stripped lines `body`:
      `rows` holds every finished record and `newRow` the one being built. */
  ghost predicate Tracks(body: seq<string>, rows: seq<Option<string>>, newRow: Option<string>) {
    && body != [] && IsTimestampLine(body[0])
    && var recs := Records(body);
    && |recs| >= 1 && newRow == Some(recs[|recs| - 1]) && rows == Present(recs[..|recs| - 1])
  }

  lemma TracksFirst(x: string)
    requires IsTimestampLine(x)
    ensures Tracks([] + [x], [], Some(x))
  {
    RecordsSnoc([], x);
    assert [] + [x] == [x];
  }

  lemma TracksOpen(body: seq<string>, rows: seq<Option<string>>, newRow: Option<string>, x: string)
    requires Tracks(body, rows, newRow) && IsTimestampLine(x)
    ensures Tracks(body + [x], rows + [newRow], Some(x))
  {
    RecordsSnoc(body, x);
    PrefixFirst(body, x);
    PresentLast(Records(body));
  }

  lemma TracksContinue(body: seq<string>, rows: seq<Option<string>>, newRow: Option<string>, x: string)
    requires Tracks(body, rows, newRow) && !IsTimestampLine(x)
    ensures Tracks(body + [x], rows, Some(newRow.value + x))
  {
    RecordsSnoc(body, x);
    PrefixFirst(body, x);
    LastReplaced(Records(body), newRow.value + x);
  }

  lemma TracksFinal(body: seq<string>, rows: seq<Option<string>>, newRow: Option<string>)
    requires Tracks(body, rows, newRow)
    ensures body != [] && IsTimestampLine(body[0]) && rows + [newRow] == Present(Records(body))
  {
    PresentLast(Records(body));
  }

  lemma PresentLast(rs: seq<string>)
    requires |rs| >= 1
    ensures Present(rs[..|rs| - 1]) + [Some(rs[|rs| - 1])] == Present(rs)
  {
  }

  lemma LastReplaced(rs: seq<string>, y: string)
    requires |rs| >= 1
    ensures var t := rs[..|rs| - 1] + [y]; t[..|t| - 1] == rs[..|rs| - 1] && t[|t| - 1] == y
  {
  }

  lemma PrefixFirst(ss: seq<string>, x: string)
    ensures (ss + [x])[0] == if ss == [] then x else ss[0]
  {
  }

  lemma StripAllEmpty(lines: seq<string>)
    requires lines != []
    ensures StripAll(lines[1..1]) == []
  {
  }

  lemma StripAllSnoc(lines: seq<string>, i: nat)
    requires 1 <= i < |lines|
    ensures StripAll(lines[1..i + 1]) == StripAll(lines[1..i]) + [Strip(lines[i])]
  {
    var t := lines[1..i + 1];
    assert t[..|t| - 1] == lines[1..i] && t[|t| - 1] == lines[i];
  }

  /** The first line after the header is a continuation line. */
  lemma ReconstructTypeError(lines: seq<string>)
    requires |lines| >= 2
    requires !IsTimestampLine(Strip(lines[1]))
    ensures Reconstruct(lines) == Err(TypeError)
  {
    StripAllAt(lines[1..], 0);
  }

  lemma ReconstructFinal(lines: seq<string>, body: seq<string>, rows: seq<Option<string>>)
    requires |lines| > 0 ==> body == StripAll(lines[1..|lines|])
    requires |lines| <= 1 ==> body == []
    requires body == [] ==> rows == [None]
    requires body != [] ==> IsTimestampLine(body[0]) && rows == Present(Records(body))
    ensures Reconstruct(lines) == Ok(rows)
  {
    if |lines| >= 2 {
      FullSlice(lines);
    }
  }

  lemma FullSlice(lines: seq<string>)
    requires lines != []
    ensures lines[1..|lines|] == lines[1..]
  {
  }

  lemma GroupsSnoc(ss: seq<string>, x: string)
    ensures Groups(ss + [x]) ==
      var gs := Groups(ss);
      if IsTimestampLine(x) || gs == [] then gs + [[x]]
      else gs[..|gs| - 1] + [gs[|gs| - 1] + [x]]
  {
    var t := ss + [x];
    assert t[..|t| - 1] == ss && t[|t| - 1] == x;
  }

  lemma JoinedSnoc(gs: seq<seq<string>>, g: seq<string>)
    ensures Joined(gs + [g]) == Joined(gs) + [Concat(g)]
  {
    var t := gs + [g];
    assert t[..|t| - 1] == gs && t[|t| - 1] == g;
  }

  lemma ConcatOne<T>(x: seq<T>)
    ensures Concat([x]) == x
  {
    assert [x][1..] == [];
    assert x + [] == x;
  }

  /** A timestamp line starts a new record; any other line, once a record
      has started, is appended to the last one. */
  lemma RecordsSnoc(ss: seq<string>, x: string)
    ensures ss == [] ==> Records(ss + [x]) == [x]
    ensures ss != [] ==> (
      var recs := Records(ss);
      |recs| >= 1 && Records(ss + [x]) ==
        if IsTimestampLine(x) then recs + [x]
        else recs[..|recs| - 1] + [recs[|recs| - 1] + x])
  {
    var gs := Groups(ss);
    GroupsSnoc(ss, x);
    ConcatOne(x);
    if IsTimestampLine(x) || gs == [] {
      JoinedSnoc(gs, [x]);
    } else {
      var init, last := gs[..|gs| - 1], gs[|gs| - 1];
      SplitLast(gs);
      JoinedSnoc(init, last);
      JoinedSnoc(init, last + [x]);
      ConcatAppend(last, [x]);
    }
  }

  /** A group as `parse_spreadsheet` builds one: a timestamp line, then
      lines that are not. */
  predicate Block(g: seq<string>) {
    g != [] && IsTimestampLine(g[0]) && forall j :: 1 <= j < |g| ==> !IsTimestampLine(g[j])
  }

  predicate AllBlocks(gs: seq<seq<string>>) {
    forall i :: 0 <= i < |gs| ==> Block(gs[i])
  }

  /** Nothing is lost, duplicated or reordered: the groups flattened are
      the lines. */
  lemma {:induction false} GroupsFlatten(ss: seq<string>)
    ensures Concat(Groups(ss)) == ss
  {
    if ss != [] {
      var init, x := ss[..|ss| - 1], ss[|ss| - 1];
      SplitLast(ss);
      var gs := Groups(init);
      GroupsFlatten(init);
      GroupsSnoc(init, x);
      if IsTimestampLine(x) || gs == [] {
        ConcatAppend(gs, [[x]]);
        ConcatOne([x]);
      } else {
        var front, last := gs[..|gs| - 1], gs[|gs| - 1];
        SplitLast(gs);
        ConcatAppend(front, [last]);
        ConcatAppend(front, [last + [x]]);
        ConcatOne(last);
        ConcatOne(last + [x]);
      }
    }
  }

  lemma ConcatSnoc<T>(front: seq<seq<T>>, g: seq<T>)
    ensures Concat(front + [g]) == Concat(front) + g
  {
    ConcatAppend(front, [g]);
    ConcatOne(g);
  }

  lemma BlocksSnoc(front: seq<seq<string>>, g: seq<string>)
    requires AllBlocks(front) && Block(g)
    ensures AllBlocks(front + [g])
  {
    var r := front + [g];
    forall i | 0 <= i < |r| ensures Block(r[i]) {
      if i < |front| {
        assert r[i] == front[i];
      }
    }
  }

  lemma BlocksFront(gs: seq<seq<string>>)
    requires AllBlocks(gs) && gs != []
    ensures AllBlocks(gs[..|gs| - 1]) && Block(gs[|gs| - 1])
  {
    var front := gs[..|gs| - 1];
    forall i | 0 <= i < |front| ensures Block(front[i]) {
      assert front[i] == gs[i];
    }
  }

  lemma BlockExtend(g: seq<string>, x: string)
    requires Block(g) && !IsTimestampLine(x)
    ensures Block(g + [x])
  {
    forall j | 1 <= j < |g| + 1 ensures !IsTimestampLine((g + [x])[j]) {
      if j < |g| {
        assert (g + [x])[j] == g[j];
      }
    }
  }

  lemma BlockShorten(g: seq<string>)
    requires Block(g) && |g| > 1
    ensures Block(g[..|g| - 1]) && !IsTimestampLine(g[|g| - 1])
  {
    var shorter := g[..|g| - 1];
    forall j | 1 <= j < |shorter| ensures !IsTimestampLine(shorter[j]) {
      assert shorter[j] == g[j];
    }
  }

  /** When the lines start with a timestamp line, every group is a block. */
  lemma {:induction false} GroupsBlocks(ss: seq<string>)
    requires ss == [] || IsTimestampLine(ss[0])
    ensures AllBlocks(Groups(ss))
  {
    if ss != [] {
      var init, x := ss[..|ss| - 1], ss[|ss| - 1];
      SplitLast(ss);
      var gs := Groups(init);
      if init != [] {
        assert init[0] == ss[0];
      }
      GroupsBlocks(init);
      GroupsSnoc(init, x);
      if IsTimestampLine(x) || gs == [] {
        assert gs == [] ==> init == [] && x == ss[0];
        BlocksSnoc(gs, [x]);
      } else {
        var front, last := gs[..|gs| - 1], gs[|gs| - 1];
        BlocksFront(gs);
        BlockExtend(last, x);
        BlocksSnoc(front, last + [x]);
      }
    }
  }

  /** The groups are the only way to cut the lines into blocks: any list of
      blocks that flattens to the lines is the list of groups. */
  lemma {:induction false} GroupsUnique(ss: seq<string>, gs: seq<seq<string>>)
    requires AllBlocks(gs) && Concat(gs) == ss
    ensures gs == Groups(ss)
    decreases |ss|
  {
    if gs != [] {
      var front, last := gs[..|gs| - 1], gs[|gs| - 1];
      SplitLast(gs);
      ConcatSnoc(front, last);
      BlocksFront(gs);
      var x := last[|last| - 1];
      var init := ss[..|ss| - 1];
      assert ss[|ss| - 1] == x;
      GroupsSnoc(init, x);
      SplitLast(ss);
      if |last| == 1 {
        GroupsUniqueOpen(ss, front, x);
      } else {
        GroupsUniqueContinue(ss, front, last);
      }
    }
  }

  /** The last block is a single timestamp line. */
  lemma {:induction false} GroupsUniqueOpen(ss: seq<string>, front: seq<seq<string>>, x: string)
    requires AllBlocks(front) && Block([x]) && Concat(front) + [x] == ss
    ensures front + [[x]] == Groups(ss)
    decreases |ss|, 0
  {
    var init := ss[..|ss| - 1];
    assert init == Concat(front) && ss[|ss| - 1] == x;
    GroupsUnique(init, front);
    SplitLast(ss);
    GroupsSnoc(init, x);
  }

  /** The last block has a continuation line at its end. */
  lemma {:induction false} GroupsUniqueContinue(ss: seq<string>, front: seq<seq<string>>, last: seq<string>)
    requires AllBlocks(front) && Block(last) && |last| > 1 && Concat(front) + last == ss
    ensures front + [last] == Groups(ss)
    decreases |ss|, 0
  {
    var shorter, x := last[..|last| - 1], last[|last| - 1];
    SplitLast(last);
    BlockShorten(last);
    var init := ss[..|ss| - 1];
    assert init == Concat(front) + shorter && ss[|ss| - 1] == x;
    BlocksSnoc(front, shorter);
    ConcatSnoc(front, shorter);
    GroupsUnique(init, front + [shorter]);
    SplitLast(ss);
    GroupsSnoc(init, x);
    var gs' := front + [shorter];
    assert gs'[..|gs'| - 1] == front && gs'[|gs'| - 1] == shorter;
  }

  lemma {:induction false} JoinedAt(gs: seq<seq<string>>, i: nat)
    requires i < |gs|
    ensures Joined(gs)[i] == Concat(gs[i])
  {
    if i < |gs| - 1 {
      JoinedAt(gs[..|gs| - 1], i);
    }
  }

  lemma {:induction false} ConcatJoined(gs: seq<seq<string>>)
    ensures Concat(Joined(gs)) == Concat(Concat(gs))
  {
    if gs != [] {
      var init, last := gs[..|gs| - 1], gs[|gs| - 1];
      SplitLast(gs);
      ConcatJoined(init);
      ConcatAppend(Joined(init), [Concat(last)]);
      ConcatAppend(init, [last]);
      ConcatAppend(Concat(init), last);
      ConcatOne(Concat(last));
      ConcatOne(last);
    }
  }

  /** The records concatenated are the lines concatenated. */
  lemma RecordsConcat(ss: seq<string>)
    ensures Concat(Records(ss)) == Concat(ss)
  {
    ConcatJoined(Groups(ss));
    GroupsFlatten(ss);
  }

  /** Every record begins with the timestamp line that opened it, so every
      record is itself a timestamp line. */
  lemma RecordsAreTimestampLines(ss: seq<string>)
    requires ss == [] || IsTimestampLine(ss[0])
    ensures forall i :: 0 <= i < |Records(ss)| ==> IsTimestampLine(Records(ss)[i])
  {
    var gs := Groups(ss);
    GroupsBlocks(ss);
    forall i | 0 <= i < |gs| ensures IsTimestampLine(Records(ss)[i]) {
      JoinedAt(gs, i);
      var g := gs[i];
      assert Block(g);
      assert g == [g[0]] + g[1..];
      ConcatAppend([g[0]], g[1..]);
      ConcatOne(g[0]);
      TimestampExtend(g[0], Concat(g[1..]));
    }
  }

  /** The number of timestamp lines. */
  function TimestampCount(ss: seq<string>): nat {
    if ss == [] then 0 else TimestampCount(ss[..|ss| - 1]) + (if IsTimestampLine(ss[|ss| - 1]) then 1 else 0)
  }

  /** One record per timestamp line. */
  lemma {:induction false} RecordsCount(ss: seq<string>)
    requires ss == [] || IsTimestampLine(ss[0])
    ensures |Records(ss)| == TimestampCount(ss)
  {
    if ss != [] {
      var init, x := ss[..|ss| - 1], ss[|ss| - 1];
      if init != [] {
        assert init[0] == ss[0];
      }
      RecordsCount(init);
      SplitLast(ss);
      GroupsSnoc(init, x);
    }
  }
}
