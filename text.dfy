/** The Python string operations main.py relies on, written out:
    `str.strip()`, `str.replace('"', '')`, `str.split(sep)`, `sep.join(xs)`,
    `str.lower()` (for the comparison with "none") and `str.startswith`. */
module Text {

  /** Python's `str.isspace()`: the characters `str.strip()` removes when it
      is given no argument. */
  predicate IsSpace(c: char) {
    || ('\t' <= c <= '\r')
    || ('\U{1C}' <= c <= '\U{1F}')
    || c == ' '
    || c == '\U{85}'
    || c == '\U{A0}'
    || c == '\U{1680}'
    || ('\U{2000}' <= c <= '\U{200A}')
    || c == '\U{2028}'
    || c == '\U{2029}'
    || c == '\U{202F}'
    || c == '\U{205F}'
    || c == '\U{3000}'
  }

  predicate AllSpace(s: string) {
    forall k :: 0 <= k < |s| ==> IsSpace(s[k])
  }

  /** `s.lstrip()`: `s` without its leading white space. */
  function TrimLeft(s: string): (r: string)
    ensures |r| <= |s|
  {
    if s != [] && IsSpace(s[0]) then TrimLeft(s[1..]) else s
  }

  /** `lstrip()` removes the longest all-white-space prefix and nothing else. */
  lemma {:induction false} TrimLeftMeaning(s: string)
    ensures var r := TrimLeft(s);
      && r == s[|s| - |r|..]
      && (forall k :: 0 <= k < |s| - |r| ==> IsSpace(s[k]))
      && (r == [] || !IsSpace(r[0]))
  {
    if s != [] && IsSpace(s[0]) {
      TrimLeftMeaning(s[1..]);
      var r := TrimLeft(s);
      forall k | 0 < k < |s| - |r| ensures IsSpace(s[k]) {
        assert s[k] == s[1..][k - 1];
      }
    }
  }

  /** `s.rstrip()`: `s` without its trailing white space. */
  function TrimRight(s: string): (r: string)
    ensures |r| <= |s|
  {
    if s != [] && IsSpace(s[|s| - 1]) then TrimRight(s[..|s| - 1]) else s
  }

  /** `rstrip()` removes the longest all-white-space suffix and nothing else. */
  lemma {:induction false} TrimRightMeaning(s: string)
    ensures var r := TrimRight(s);
      && r == s[..|r|]
      && (forall k :: |r| <= k < |s| ==> IsSpace(s[k]))
      && (r == [] || !IsSpace(r[|r| - 1]))
  {
    if s != [] && IsSpace(s[|s| - 1]) {
      TrimRightMeaning(s[..|s| - 1]);
      var r := TrimRight(s);
      forall k | |r| <= k < |s| - 1 ensures IsSpace(s[k]) {
        assert s[k] == s[..|s| - 1][k];
      }
    }
  }

  /** `s.strip()`. */
  function Strip(s: string): (r: string)
    ensures |r| <= |s|
  {
    TrimRight(TrimLeft(s))
  }

  /** What `strip()` promises: no white space at either end, nothing left
      of a blank line, and a line with no white space at its ends untouched. */
  lemma StripMeaning(s: string)
    ensures var r := Strip(s);
      && (r == [] || (!IsSpace(r[0]) && !IsSpace(r[|r| - 1])))
      && (r == [] <==> AllSpace(s))
      && ((s == [] || (!IsSpace(s[0]) && !IsSpace(s[|s| - 1]))) ==> r == s)
  {
    var l := TrimLeft(s);
    var r := TrimRight(l);
    TrimLeftMeaning(s);
    TrimRightMeaning(l);
    assert r == [] ==> l == [];
    assert AllSpace(s) ==> l == [];
  }

  lemma StripIdempotent(s: string)
    ensures Strip(Strip(s)) == Strip(s)
  {
    StripMeaning(s);
    StripMeaning(Strip(s));
  }

  /** `s.replace('"', '')`: every double quote removed, everything else kept in order. */
  function Sanitize(s: string): (r: string)
    ensures '"' !in r
    ensures |r| <= |s|
    ensures '"' !in s ==> r == s
    ensures forall c :: c != '"' ==> multiset(r)[c] == multiset(s)[c]
  {
    if s == [] then []
    else
      var rest := Sanitize(s[1..]);
      assert s == [s[0]] + s[1..];
      if s[0] == '"' then rest else [s[0]] + rest
  }

  /** Removing quotes commutes with concatenation, so it keeps the order of
      the characters it leaves. */
  lemma {:induction false} SanitizeAppend(a: string, b: string)
    ensures Sanitize(a + b) == Sanitize(a) + Sanitize(b)
  {
    if a != [] {
      assert (a + b)[1..] == a[1..] + b;
      SanitizeAppend(a[1..], b);
    } else {
      assert a + b == b;
    }
  }

  /** `s.split(sep)` with a single-character separator. */
  function Split(s: string, sep: char): (r: seq<string>)
    ensures |r| >= 1
  {
    if s == [] then [[]]
    else
      var rest := Split(s[1..], sep);
      if s[0] == sep then [[]] + rest
      else [[s[0]] + rest[0]] + rest[1..]
  }

  /** No field of a split holds the separator. */
  lemma {:induction false} SplitFields(s: string, sep: char)
    ensures forall i :: 0 <= i < |Split(s, sep)| ==> sep !in Split(s, sep)[i]
  {
    if s != [] {
      SplitFields(s[1..], sep);
      var rest := Split(s[1..], sep);
      var r := Split(s, sep);
      if s[0] != sep {
        forall i | 0 <= i < |r| ensures sep !in r[i] {
          if i == 0 {
            assert r[0] == [s[0]] + rest[0];
          } else {
            assert r[i] == rest[i];
          }
        }
      } else {
        forall i | 0 <= i < |r| ensures sep !in r[i] {
          if i > 0 {
            assert r[i] == rest[i - 1];
          }
        }
      }
    }
  }

  /** A split has one more field than the text has separators. */
  lemma {:induction false} SplitCount(s: string, sep: char)
    ensures |Split(s, sep)| == multiset(s)[sep] + 1
  {
    if s != [] {
      SplitCount(s[1..], sep);
      assert s == [s[0]] + s[1..];
      assert multiset(s) == multiset{s[0]} + multiset(s[1..]);
    }
  }

  /** Text without the separator splits into itself alone. */
  lemma {:induction false} SplitNoSeparator(s: string, sep: char)
    requires sep !in s
    ensures Split(s, sep) == [s]
  {
    if s != [] {
      assert sep !in s[1..] by {
        forall k | 0 <= k < |s[1..]| ensures s[1..][k] != sep {
          assert s[1..][k] == s[k + 1];
        }
      }
      SplitNoSeparator(s[1..], sep);
      assert [s[0]] + s[1..] == s;
    }
  }

  /** `sep.join(xs)`. */
  function Join(xs: seq<string>, sep: string): (r: string)
    ensures xs == [] ==> r == []
    ensures |xs| == 1 ==> r == xs[0]
  {
    if |xs| == 0 then []
    else if |xs| == 1 then xs[0]
    else xs[0] + sep + Join(xs[1..], sep)
  }

  /** Splitting at a separator splits the text on each side of it independently. */
  lemma {:induction false} SplitAround(a: string, b: string, sep: char)
    ensures Split(a + [sep] + b, sep) == Split(a, sep) + Split(b, sep)
  {
    if a == [] {
      assert a + [sep] + b == [sep] + b;
      assert ([sep] + b)[1..] == b;
    } else {
      assert (a + [sep] + b)[1..] == a[1..] + [sep] + b;
      SplitAround(a[1..], b, sep);
    }
  }

  /** Joining the fields of a split gives the text back. */
  lemma {:induction false} JoinSplit(s: string, sep: char)
    ensures Join(Split(s, sep), [sep]) == s
  {
    if s != [] {
      var rest := Split(s[1..], sep);
      var r := Split(s, sep);
      JoinSplit(s[1..], sep);
      if s[0] == sep {
        assert r[0] == [] && r[1..] == rest;
        assert Join(r, [sep]) == [] + [sep] + Join(rest, [sep]);
        assert [s[0]] + s[1..] == s;
      } else if |rest| == 1 {
        assert r == [[s[0]] + rest[0]];
        assert [s[0]] + s[1..] == s;
      } else {
        assert r[0] == [s[0]] + rest[0] && r[1..] == rest[1..];
        var tail := Join(rest[1..], [sep]);
        assert Join(rest, [sep]) == rest[0] + [sep] + tail;
        assert Join(r, [sep]) == ([s[0]] + rest[0]) + [sep] + tail;
        assert ([s[0]] + rest[0]) + [sep] + tail == [s[0]] + (rest[0] + [sep] + tail);
        assert [s[0]] + s[1..] == s;
      }
    }
  }

  /** Splitting a join whose parts hold no separator gives the parts back. */
  lemma {:induction false} SplitJoin(xs: seq<string>, sep: char)
    requires |xs| >= 1
    requires forall i :: 0 <= i < |xs| ==> sep !in xs[i]
    ensures Split(Join(xs, [sep]), sep) == xs
  {
    if |xs| > 1 {
      SplitJoin(xs[1..], sep);
      SplitAround(xs[0], Join(xs[1..], [sep]), sep);
      SplitNoSeparator(xs[0], sep);
      assert xs == [xs[0]] + xs[1..];
    } else {
      SplitNoSeparator(xs[0], sep);
    }
  }

  /** `str.lower()` on the ASCII letters. */
  function LowerChar(c: char): char {
    if 'A' <= c <= 'Z' then (c as int + 32) as char else c
  }

  function LowerAscii(s: string): (r: string)
    ensures |r| == |s|
    ensures forall i :: 0 <= i < |s| ==> r[i] == LowerChar(s[i])
  {
    seq(|s|, i requires 0 <= i < |s| => LowerChar(s[i]))
  }

  /** Lower-casing leaves no upper-case ASCII letter, turns each one into
      its own lower-case letter, keeps every other character, and doing it
      twice is doing it once. */
  lemma LowerAsciiMeaning(s: string)
    ensures var r := LowerAscii(s);
      && |r| == |s|
      && (forall i :: 0 <= i < |r| ==> !('A' <= r[i] <= 'Z'))
      && (forall i :: 0 <= i < |s| && 'A' <= s[i] <= 'Z' ==> r[i] as int == s[i] as int + 32)
      && (forall i :: 0 <= i < |s| && !('A' <= s[i] <= 'Z') ==> r[i] == s[i])
      && LowerAscii(r) == r
  {
    var r := LowerAscii(s);
    assert LowerAscii(r) == r;
  }

  /** `s.lower() == 'none'`. */
  predicate IsNoneWord(s: string) {
    LowerAscii(s) == "none"
  }

  /** A word reads as "none" exactly when it is the four letters n, o, n, e,
      each in either case. */
  lemma NoneWordMeaning(s: string)
    ensures IsNoneWord(s) <==> |s| == 4 && s[0] in "nN" && s[1] in "oO" && s[2] in "nN" && s[3] in "eE"
  {
    if |s| == 4 && s[0] in "nN" && s[1] in "oO" && s[2] in "nN" && s[3] in "eE" {
      assert LowerAscii(s) == "none";
    }
    if IsNoneWord(s) {
      var r := LowerAscii(s);
      assert r[0] == 'n' && r[1] == 'o' && r[2] == 'n' && r[3] == 'e';
    }
  }

  lemma NoneWordExamples()
    ensures IsNoneWord("None") && IsNoneWord("NONE") && IsNoneWord("none") && IsNoneWord("nOnE")
    ensures !IsNoneWord("") && !IsNoneWord("No one") && !IsNoneWord(" none")
  {
    assert LowerAscii("None") == "none";
    assert LowerAscii("NONE") == "none";
    assert LowerAscii("none") == "none";
    assert LowerAscii("nOnE") == "none";
    assert LowerAscii(" none")[0] == ' ';
  }

  /** `s.startswith(p)`. */
  predicate StartsWith(s: string, p: string) {
    |p| <= |s| && s[..|p|] == p
  }

  /** A non-empty list is its front followed by its last element. */
  lemma SplitLast<T>(s: seq<T>)
    requires s != []
    ensures s == s[..|s| - 1] + [s[|s| - 1]]
  {
  }

  /** `''.join(ss)` on strings; more generally, a list of lists flattened. */
  function Concat<T>(ss: seq<seq<T>>): (r: seq<T>)
    ensures ss == [] ==> r == []
  {
    if ss == [] then [] else ss[0] + Concat(ss[1..])
  }

  lemma {:induction false} ConcatAppend<T>(a: seq<seq<T>>, b: seq<seq<T>>)
    ensures Concat(a + b) == Concat(a) + Concat(b)
  {
    if a == [] {
      assert a + b == b;
    } else {
      assert (a + b)[1..] == a[1..] + b;
      ConcatAppend(a[1..], b);
    }
  }
}
