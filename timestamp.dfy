/** The one regular expression of main.py:72,
      ^\d{,2}/\d{,2}/\d{,4} \d{,2}:\d{,2}:\d{,2}\t
    applied with `re.search` to a stripped line.  `\d{,n}` is 0 to n
    digits, so every digit field may also be empty.  The recogniser is
    written by hand and shown equal to a declarative reading of the pattern. */
module Timestamp {

  predicate IsDigit(c: char) {
    '0' <= c <= '9'
  }

  /** One field of the pattern: at most `maxDigits` digits, then `sep`. */
  datatype Field = Field(maxDigits: nat, sep: char)

  /** day/month/year hour:minute:second, then a tab. */
  const Pattern: seq<Field> :=
    [Field(2, '/'), Field(2, '/'), Field(4, ' '), Field(2, ':'), Field(2, ':'), Field(2, '\t')]

  /** The number of consecutive digits of `s` from position `i` on. */
  function DigitRun(s: string, i: nat): (n: nat)
    requires i <= |s|
    ensures i + n <= |s|
    ensures i + n == |s| || !IsDigit(s[i + n])
    decreases |s| - i
  {
    if i < |s| && IsDigit(s[i]) then 1 + DigitRun(s, i + 1) else 0
  }

  /** Every character of the run is a digit. */
  lemma {:induction false} DigitRunDigits(s: string, i: nat)
    requires i <= |s|
    ensures forall j :: i <= j < i + DigitRun(s, i) ==> IsDigit(s[j])
    decreases |s| - i
  {
    if i < |s| && IsDigit(s[i]) {
      DigitRunDigits(s, i + 1);
    }
  }

  /** The recogniser: the digits of each field are taken greedily, and the
      separator must follow them.  No backtracking is needed, because no
      separator of the pattern is a digit. */
  function MatchFrom(s: string, i: nat, pat: seq<Field>): bool
    requires i <= |s|
    decreases pat
  {
    if pat == [] then true
    else
      var n := DigitRun(s, i);
      n <= pat[0].maxDigits && i + n < |s| && s[i + n] == pat[0].sep && MatchFrom(s, i + n + 1, pat[1..])
  }

  /** `re.search(pattern, line) is not None`: the pattern is anchored at
      the start of the line. */
  predicate IsTimestampLine(s: string) {
    MatchFrom(s, 0, Pattern)
  }

  /** `s` has exactly `k` digits from `i` on, then the separator of `f`. */
  ghost predicate FieldAt(s: string, i: nat, k: nat, f: Field) {
    i + k < |s| && (forall j :: i <= j < i + k ==> IsDigit(s[j])) && s[i + k] == f.sep
  }

  /** The declarative reading: some choice of digit counts, each within its
      bound, spells out the fields of `pat` from position `i` on. */
  ghost predicate Matches(s: string, i: nat, pat: seq<Field>)
    decreases pat
  {
    pat == [] || exists k: nat :: k <= pat[0].maxDigits && FieldAt(s, i, k, pat[0]) && Matches(s, i + k + 1, pat[1..])
  }

  predicate NoDigitSeparators(pat: seq<Field>) {
    forall i :: 0 <= i < |pat| ==> !IsDigit(pat[i].sep)
  }

  lemma {:induction false} DigitRunExact(s: string, i: nat, k: nat)
    requires i + k < |s|
    requires forall j :: i <= j < i + k ==> IsDigit(s[j])
    requires !IsDigit(s[i + k])
    ensures DigitRun(s, i) == k
    decreases k
  {
    if k > 0 {
      DigitRunExact(s, i + 1, k - 1);
    }
  }

  /** The recogniser accepts exactly what the pattern describes. */
  lemma {:induction false} RecogniserCorrect(s: string, i: nat, pat: seq<Field>)
    requires i <= |s|
    requires NoDigitSeparators(pat)
    ensures MatchFrom(s, i, pat) <==> Matches(s, i, pat)
    decreases pat
  {
    if pat != [] {
      var n := DigitRun(s, i);
      assert NoDigitSeparators(pat[1..]);
      if MatchFrom(s, i, pat) {
        DigitRunDigits(s, i);
        RecogniserCorrect(s, i + n + 1, pat[1..]);
        assert FieldAt(s, i, n, pat[0]);
      }
      if Matches(s, i, pat) {
        var k: nat :| k <= pat[0].maxDigits && FieldAt(s, i, k, pat[0]) && Matches(s, i + k + 1, pat[1..]);
        DigitRunExact(s, i, k);
        RecogniserCorrect(s, i + k + 1, pat[1..]);
      }
    }
  }

  lemma TimestampLineMeaning(s: string)
    ensures IsTimestampLine(s) <==> Matches(s, 0, Pattern)
  {
    RecogniserCorrect(s, 0, Pattern);
  }

  /** Whether a line matches depends only on a prefix ending in the tab, so
      appending text to a matching line keeps it matching. */
  lemma {:induction false} MatchFromExtend(s: string, t: string, i: nat, pat: seq<Field>)
    requires i <= |s|
    requires MatchFrom(s, i, pat)
    ensures MatchFrom(s + t, i, pat)
    decreases pat
  {
    if pat != [] {
      var n := DigitRun(s, i);
      DigitRunDigits(s, i);
      assert forall j :: i <= j <= i + n ==> (s + t)[j] == s[j];
      DigitRunExact(s + t, i, n);
      MatchFromExtend(s, t, i + n + 1, pat[1..]);
    }
  }

  lemma TimestampExtend(s: string, t: string)
    requires IsTimestampLine(s)
    ensures IsTimestampLine(s + t)
  {
    MatchFromExtend(s, t, 0, Pattern);
  }
}
