# DirectorSelection, modelled in Dafny

DirectorSelection tallies a survey. Each member named up to four preferred
candidates for Director, and up to two people they thought unsuitable. The
program reads the tab-separated export of the survey, in `main.py`:

- `parse_spreadsheet` rebuilds the records: a line that starts with a
  timestamp opens a record, and any other line continues the previous one;
- `extract_data` builds one `Candidate` per name, separately for the
  ranked choices and for the "no-go" votes;
- `Candidate.set_choice` records each vote and recomputes the candidate's
  Borda score;
- both dictionaries are then sorted by score, highest first, and the free
  text suggestions are collected;
- the candidates scoring more than 30 are passed on for summary.

The project models that core. Each file is one module.

- `failures.dfy` (`Failures`): `Option`, `Result`, and the three Python
  exceptions the core can raise.
- `text.dfy` (`Text`): `str.strip`, `sanitize`, `str.split` and `str.join`,
  ASCII `lower`, and `startswith`.
- `tally.dfy` (`Tallies`): a `choice_rank` dictionary, as the value
  `Tally`, with its insertion order. Also the Borda score, and what votes
  do to both.
- `candidate.dfy` (`Candidates`): the class `Candidate`, with the fields
  `set_choice` updates in place. Also its value counterpart `Nominee`.
- `timestamp.dfy` (`Timestamp`): a recogniser for the timestamp regular
  expression, proved equal to a declarative reading of the pattern.
- `spreadsheet.dfy` (`Spreadsheet`): `parse_spreadsheet` as a loop over the
  file's lines, proved against the function `Reconstruct`.
- `votes.dfy` (`Votes`): how each record's columns become the votes the
  loop casts.
- `ranking.dfy` (`Ranking`): the stable sort by descending score.
- `aggregate.dfy` (`Aggregate`): `extract_data` as a function on values,
  and the `> 30` filter.
- `extraction.dfy` (`Extraction`): `extract_data` as loops over
  `Candidate` objects, proved to mirror `Aggregate.Extract`.

The Python dictionaries `the_candidates` and `the_unsuitables` map a name
to the candidate built for that name, in first-seen order. They are
modelled as sequences of candidates keyed by their `name`. `RankEntries`
keeps the same objects and only reorders them, exactly as `dict(sorted(...))`
does.

## Model

| member | source | states |
|---|---|---|
| Text.Sanitize | main.py:6-7 | The result holds no double quote, and it keeps every other character with its multiplicity. Text without quotes comes back unchanged. |
| Text.SanitizeAppend | main.py:6-7 | Sanitising distributes over concatenation. |
| Text.StripMeaning | main.py:93 | `strip` leaves no white space at either end. It gives the empty string exactly when the input is all white space, and leaves an already-stripped string alone. |
| Text.TrimLeftMeaning | main.py:93 | The result is a suffix of the input, and only white space was removed in front of it. |
| Text.TrimRightMeaning | main.py:93 | The result is a prefix of the input, and only white space was removed after it. |
| Text.StripIdempotent | main.py:76-78 | Stripping twice is stripping once. |
| Text.SplitCount | main.py:90 | Splitting at a tab gives one more field than there are tabs. |
| Text.SplitFields | main.py:90 | No field produced by splitting holds the separator. |
| Text.SplitNoSeparator | main.py:90 | A string without the separator splits into itself alone. |
| Text.JoinSplit | main.py:37-41 | Joining the fields of a split with the separator gives the string back. |
| Text.SplitJoin | main.py:37-41 | Splitting a join gives the parts back, when no part holds the separator. |
| Text.LowerAsciiMeaning | main.py:112 | Lower-casing keeps the length and leaves no upper-case letter. Each upper-case letter becomes its own lower-case letter, every other character is kept, and lower-casing twice is lower-casing once. |
| Text.NoneWordMeaning | main.py:112 | A word compares equal to "none" after `lower()` exactly when it is the four letters n, o, n, e, each in either case. |
| Text.NoneWordExamples | main.py:112 | Every capitalisation of "none" counts as "none". "", "No one" and " none" do not. |
| Tallies.Fresh | main.py:15-17 | The tally built from `range(lo, hi)` is a well-formed dictionary. Its `rank_size` is the number of ranks in the range. |
| Tallies.FreshMeaning | main.py:15-18 | The keys of a fresh tally are `lo .. hi-1` in order, each with count 0. Its score and vote count are 0. |
| Tallies.RecordCounts | main.py:23-27 | A vote adds one to the count of its rank, adding the rank with count 1 when it is not yet a key. Every other count stays the same. A new key goes at the end of the key order. |
| Tallies.RecordEffect | main.py:22-29 | A vote at rank `c` raises the Borda score by `rank_size + 1 - c` and the vote count by one. |
| Tallies.RecordAllEffect | main.py:22-29 | After any sequence of votes, the score has grown by the points of those votes, and the vote count by their number. |
| Tallies.BordaOrderIndependent | main.py:29 | Two vote sequences that are permutations of each other give the same score. |
| Tallies.RecordAllCounts | main.py:23-27 | Votes inside the range keep the key order and keys. Each count grows by the number of votes at that rank. |
| Tallies.TallyOrderIndependent | main.py:23-27 | From a fresh tally, permuted votes within the range give the same tally. |
| Tallies.FreshThenRecordAll | main.py:15-27 | From a fresh tally, the count of every rank is the number of votes at that rank. |
| Tallies.TwoBallotCounts | main.py:15-27 | A first and a second choice on `range(1, 6)` give counts 1, 1, 0, 0, 0. |
| Tallies.TwoBallotScore | main.py:29 | A first and a second choice on `range(1, 6)` score 5 + 4 = 9. |
| Candidates.NewNominee | main.py:11-20 | A new candidate holds its name and a fresh tally. It has score 0 and no reasons or examples. |
| Candidates.Cast | main.py:22-32 | A vote keeps the candidate consistent and adds its points to the score. It appends the sanitised reason and the sanitised example. |
| Candidates.CastQuoteFree | main.py:31-32 | Candidates never store a double quote. |
| Candidates.Candidate.constructor | main.py:11-20 | The loop over `range(lo, hi)` builds exactly the fresh tally. The new object is valid. |
| Candidates.Candidate.ComputeBorda | main.py:29 | The loop over the `choice_rank` items computes the Borda score of the tally. |
| Candidates.Candidate.SetChoice | main.py:22-32 | The object keeps its invariant and now holds `Cast` of its old value. The stored score grows by `rank_size + 1 - choice`; the count of `choice` grows by one and the other counts stay the same. |
| Candidates.Candidate.GetBordaCount | main.py:34-35 | The stored score always equals the score recomputed from the tally. |
| Candidates.Candidate.GetReasons | main.py:37-38 | No reasons join to "". Reasons free of '.' can be recovered by splitting the result at '.'. |
| Candidates.Candidate.GetExamples | main.py:40-41 | The same as `GetReasons`, for the examples. |
| Candidates.Candidate.Gt | main.py:43-47 | As written, `a > b` holds exactly when `a` scores less than `b`. |
| Candidates.Candidate.Eq | main.py:49-50 | `a == b` holds exactly when the scores are equal. |
| Candidates.ComparisonTrichotomy | main.py:43-50 | Of `a > b`, `b > a` and `a == b`, exactly one holds. |
| Timestamp.DigitRun | main.py:72 | A digit run stops at the end of the text or at a non-digit. |
| Timestamp.DigitRunDigits | main.py:72 | Every character of a digit run is a digit. |
| Timestamp.RecogniserCorrect | main.py:72 | The greedy recogniser accepts exactly the strings in which some digit counts, each within its field's bound, spell out the fields. |
| Timestamp.TimestampLineMeaning | main.py:72 | A line counts as a timestamp line exactly when it matches `d{,2}/d{,2}/d{,4} d{,2}:d{,2}:d{,2}` then a tab, anchored at the start. |
| Timestamp.TimestampExtend | main.py:72-78 | The match is anchored only at the start, so appending text keeps a timestamp line one. |
| Spreadsheet.ParseSpreadsheet | main.py:60-80 | The loop over the lines computes `Reconstruct`. That is `[None]` for a file of at most one line, and TypeError when the first body line is not a timestamp line. Otherwise it gives the records. |
| Spreadsheet.ReadLine | main.py:67-78 | One step fails exactly on a first body line without a timestamp. Otherwise it keeps the loop's state equal to the records read so far. |
| Spreadsheet.ReconstructTypeError | main.py:77-78 | A continuation line before any record raises TypeError. |
| Spreadsheet.GroupsFlatten | main.py:72-79 | Grouping the stripped lines loses, duplicates and reorders nothing. |
| Spreadsheet.GroupsBlocks | main.py:72-78 | Each group is one timestamp line followed by non-timestamp lines. |
| Spreadsheet.GroupsUnique | main.py:72-79 | Any split of the lines into such blocks is the grouping computed. |
| Spreadsheet.RecordsConcat | main.py:74-79 | The records concatenated equal the stripped lines concatenated. |
| Spreadsheet.RecordsAreTimestampLines | main.py:72-76 | Every record starts with a timestamp. |
| Spreadsheet.RecordsCount | main.py:72-79 | There is one record per timestamp line. |
| Votes.FifthChoiceLastTwo | main.py:95-97 | A "5th choice" entry that ends in two words `a b` names the candidate `a b`, whatever stands before them. |
| Votes.FifthChoiceFields | main.py:96-97 | A "5th choice" entry has at least two words, so `fifth[-2]` exists. |
| Votes.ChoiceVote | main.py:92-105 | A choice column gives a vote exactly when its stripped name is non-empty. A name starting with "5th choice" votes at rank 5 for the last two words of the name. Any other name votes at rank `idx + 1` under the stripped name. The reason and the example are the next two columns, unstripped. |
| Votes.NoGoVote | main.py:110-117 | A no-go column gives a vote exactly when its stripped name is neither empty nor "none" in any case. The vote has rank `idx + 1`, the next column as its reason, and an empty example. |
| Votes.Suggestion | main.py:120-122 | A record's suggestion is kept exactly when column 17 is non-empty after stripping, and the kept value is the stripped column. |
| Votes.NonBlank | main.py:121-122 | The kept strings are non-empty, and they are exactly the non-empty strings of the input. |
| Votes.SuggestionsMeaning | main.py:120-122 | When the records read, every record is present with a column 17. The suggestions are the non-blank stripped column-17 values, in record order. |
| Votes.ReadRow | main.py:88-122 | A `None` record raises AttributeError. A record with fewer than 18 fields raises IndexError. Otherwise it gives at most four choices, two no-go votes and one suggestion. |
| Votes.ReadRowsOk | main.py:88-122 | The records read without error exactly when each record does. |
| Votes.ReadRowsFirstError | main.py:88-122 | When the records read fail, the error is the first failing record's. |
| Votes.RanksInRange | main.py:98-117 | Choice ranks lie in `1..5` and no-go ranks in `1..2`, so every vote lands on a key of `range(1, 6)` or `range(1, 3)`. |
| Aggregate.FindMeaning | main.py:101-104 | Looking a name up finds it exactly when it is a key, and finds its first occurrence. |
| Aggregate.Enter | main.py:101-107 | An entry keeps every candidate consistent. |
| Aggregate.EnterCollects | main.py:101-107 | After a vote, every entry still holds all the votes for its name. |
| Aggregate.DedupMeaning | main.py:101-107 | First-seen deduplication has every name once, and the same names. |
| Aggregate.TalliedNames | main.py:101-107 | The dictionary's keys are the voted-for names, each once, in first-seen order. |
| Aggregate.UniqueNames | main.py:101-107 | No key repeats, and the keys are exactly the names that received votes. |
| Aggregate.TalliedCollects | main.py:100-118 | Each entry is a fresh candidate that received all the votes for its name, in order. |
| Aggregate.CastAllMeaning | main.py:22-32 | After votes `ws`, the tally is the old tally with `ws`'s ranks recorded. The reasons and examples are extended by the sanitised ones of `ws`. |
| Aggregate.CollectedMeaning | main.py:100-118 | An entry's score is the sum of the points of its votes, its vote count is their number, and its reasons and examples are theirs, sanitised, in order. |
| Aggregate.CastFromFresh | main.py:11-32 | From a new candidate, votes `ws` give exactly the tally, score, reasons and examples of `ws`. |
| Aggregate.RankedMeaning | main.py:125-126 | The sort is a permutation of the entries. Scores never rise along it, and equal scores keep their original order, as in Python's stable `sorted(..., reverse=True)`. |
| Aggregate.RankedUnique | main.py:125-126 | Any stable descending order of the entries is the one computed. |
| Aggregate.RankedNames | main.py:125-126 | Sorting keeps the keys, each once. |
| Aggregate.Extract | main.py:83-127 | The result is an error exactly when some record fails. Otherwise every candidate in it is consistent. |
| Aggregate.ExtractMeaning | main.py:83-127 | Both dictionaries have unique keys: exactly the voted-for names, for the candidates and for the no-go votes. Each entry holds all the votes for its name, and each dictionary is in descending score order. The suggestions are the non-blank stripped column-17 values, in record order. |
| Aggregate.DictionaryMeaning | main.py:100-126 | A sorted dictionary built from any votes has unique keys, one per voted-for name. Each entry holds its votes, and scores descend. |
| Aggregate.Top | main.py:144 | The filter keeps at most as many candidates as it is given. |
| Aggregate.TopPositions | main.py:144 | The positions of the candidates scoring more than 30, strictly increasing: a position is listed exactly when its candidate scores more than 30. |
| Aggregate.TopSelects | main.py:144 | The filter keeps exactly the candidates at those positions, in their original order. |
| Aggregate.TopMeaning | main.py:144 | A candidate is kept exactly when it is listed and scores more than 30. |
| Aggregate.TopPrefix | main.py:144 | On a list sorted by score, the kept candidates are a prefix, and everyone after it scores 30 or less. |
| Aggregate.TopAll | main.py:144 | When everyone scores more than 30, all are kept. |
| Ranking.OrderDistinct | main.py:125-126 | The sort order never lists a position twice. |
| Ranking.OrderPermutation | main.py:125-126 | The sort order lists each position exactly once. |
| Ranking.OrderDescending | main.py:125-126 | Along the sort order, scores never rise, and equal scores keep their positions' order. |
| Ranking.DescendingUnique | main.py:125-126 | Two stable descending orders of the same positions are equal. |
| Ranking.OrderUnique | main.py:125-126 | The computed order is the only stable descending one. |
| Ranking.PermutePermutes | main.py:125-126 | Applying a permutation of the positions rearranges the entries without losing or adding any. |
| Ranking.OrderExample | main.py:125-126 | Scores `[1, 3, 3]` sort as positions `[1, 2, 0]`: the tie keeps its order. |
| Extraction.MirrorNames | main.py:101-113 | The objects' names are the keys of the value they mirror. |
| Extraction.NewEntry | main.py:102-106 | A new `Candidate` given its first vote holds exactly that candidate value. |
| Extraction.UpdateEntry | main.py:104-107 | A vote on an existing object changes that entry, and no other, to `Cast` of its value. |
| Extraction.VoteFound | main.py:103-107 | A vote for a known name updates that object in place. |
| Extraction.VoteNew | main.py:101-107 | A vote for a new name appends one new object. |
| Extraction.CastVote | main.py:101-107 | The objects mirror `Enter` of the vote, and stay distinct. The list is unchanged or gains one new object. |
| Extraction.CastOne | main.py:94-118 | Casting an optional vote mirrors the votes so far plus that vote. |
| Extraction.CastChoices | main.py:92-107 | The loop over the four choice columns mirrors the votes of those columns, in order. |
| Extraction.CastNoGos | main.py:110-118 | The loop over the two no-go columns mirrors their votes. The candidates' objects stay apart from these. |
| Extraction.CastRecord | main.py:90-118 | One record extends both dictionaries by its votes. They share no object, and every object is old or new. |
| Extraction.CollectRecords | main.py:88-122 | The loop over the records fails exactly when, and as, `ReadRows` does. Otherwise the dictionaries mirror the votes of every record, and the suggestions are those of every record. |
| Extraction.RankEntries | main.py:125-126 | The sort keeps the same objects, reordered to mirror `Ranked`. |
| Extraction.ExtractData | main.py:83-127 | `extract_data` on objects fails exactly when `Extract` does, with the same error. Otherwise it returns objects mirroring `Extract`'s dictionaries, and the same suggestions. |

## Left out

- Reading the file (`open`, `readlines`) is left out. `parse_spreadsheet` takes the file's lines as a sequence of strings.
- The `__main__` block (main.py:130-175) is left out apart from the filter at line 144. That covers printing, the prompt strings and the two OpenAI calls, which are I/O and a remote service.
- `Candidate.__repr__` and `Candidate.get_counts` are left out. They only format text for printing.
- `\d` is modelled as the ASCII digits; the other Unicode decimal digits that Python's `re` also accepts are left out.
- `str.lower` is modelled on ASCII letters only. For the comparison with "none" this is exact, because no non-ASCII character lower-cases to 'n', 'o' or 'e'.
- `str.strip` uses the white-space characters of Python's `str.isspace`. The model lists them explicitly.
- Votes.ReadRow: a record with fewer than 18 fields raises IndexError before any of its columns are read. In Python the error comes at the first missing column, after earlier columns of that record have already updated candidates. The exception discards the whole result, so what the caller observes is the same.
- Candidates.Candidate.Gt: modelled as written, with the inverted comparison. Nothing in the core uses it, because `sorted` is given an explicit `key`.
- Integer width is not an issue: Python integers are unbounded, like Dafny's `int`.
