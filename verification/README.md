# mode: counting and segmentation helpers of package `utils`

`mode` reads lines of text and ranks them by how often they occur. Package
`utils` holds helpers for this. `CountFrequencies` counts lines read from a
scanner into a frequency table. It can split each line into
whitespace-separated n-grams (`AddNgramCount`). It can cut each line against
a dictionary sorted longest first (`LoadDict`, `SegmentWords`,
`AddSegmentCount`). It adds each piece, and the line itself, to the table.
When asked, it then keeps only dictionary entries. `SortItems` ranks the keys
by count and `PrintItems` lists those longer than a threshold.

`main.go` does not call the counting helpers. Its consumer loop
(`main.go:87-112`) does its own counting, after calling `FilterTextForPrint`
and `TokenizeParse`. Of the functions modelled here, the program's run
reaches only `SortItems` and `PrintItems` (`main.go:113-114`). The other
helpers are modelled as `utils.go` defines them and as `utils_test.go`
exercises them.

This project models that package in Dafny:

- `strings.dfy` (module `Strings`): Go's `strings.Fields` on ASCII white
  space, and its round trip with a single-space join.
- `tally.dfy` (module `Tally`): the frequency table as a `map<string, int>`.
  `Count` reads a key as Go reads a map, with 0 for a missing key. `Inc` is
  `freq[k]++` and `AddAll` is a run of `freq[k]++`. Lemmas give the count
  and the key set after a run of increments.
- `sorting.dfy` (module `Sorting`): an in-place insertion sort on an
  `array<string>`, standing for `sort.Slice` with a `>` comparator. It is
  specified only by its outcome: a permutation in non-increasing key order.
- `utils.dfy` (module `Utils`): everything in `pkg/utils/utils.go` except
  I/O:
  - `SegmentWords` is an imperative method checked against the
    specification function `Segment`.
  - The Go map the functions update becomes class `FrequencyTable`, with a
    `counts` field. `AddNgramCount`, `AddSegmentCount`, the sweep and
    `CountFrequencies` are methods on it. The loop body of
    `CountFrequencies` is the method `CountLine`.
  - `CountFrequencies` is proved equal to the specification function
    `Frequencies`. Lemmas about `Frequencies` state what the counts are,
    that counts never decrease, and that the order `sort.Slice` leaves
    between dictionary entries of equal length has no effect.
  - `SortItems`, `LoadDict`, `PrintItems` and `contains` are methods with
    loops.
- `tests.dfy` (module `UtilsTests`): the cases of
  `pkg/utils/utils_test.go`. Each is stated twice: as a lemma about the
  specification functions, and as a method that calls the modelled method
  on the test's inputs and ensures the test's expected result.

Strings are sequences of one `char` per byte, so lengths and offsets are
Go's byte lengths and byte offsets. The input lines (the scanner over
standard input) and the lines of the dictionary file are parameters of type
`seq<string>`. `CountFrequencies` returns, as a ghost value, the dictionary
it built, so that its postcondition can name it. `PrintItems` returns the
lines it would print, as `OutputLine` values.

The model follows the code where the code and its comments could be read
differently:

- `SegmentWords` breaks out of its scan after the first match. It returns
  at most one segment: the first dictionary entry, in dictionary order,
  that matches at the first offset where any entry matches. The model
  keeps this.
- `PrintItems` filters on the byte length of the item
  (`len(item) > exclude`). `main.go` passes it the `-m` "minimum
  frequency" flag. The model follows `utils.go`: the threshold is on
  length, not on count.
- `sort.Slice` is not stable, so the model says nothing about the order of
  ranked items with equal counts. `SortItemsOfRanked` shows that the test
  table, whose counts are all different, has exactly one admissible order.
- `CountFrequencies` sweeps out non-dictionary keys only when both
  `include` and a dictionary file are given. Keys that were already in the
  table before the call are swept as well.

## Model

| member | source | states |
|---|---|---|
| Strings.Fields | pkg/utils/utils.go:14 | every field `strings.Fields` yields is non-empty and holds no white space |
| Strings.FieldsOfWord | pkg/utils/utils.go:14 | a leading word followed by white space or by nothing is the first field; the fields of the rest follow it |
| Strings.FieldsKeepText | pkg/utils/utils.go:14 | on any input, whatever its runs of white space, the fields laid end to end are the input with its white space removed |
| Strings.FieldsOfJoin | pkg/utils/utils.go:14 | splitting words joined by single spaces gives back exactly those words |
| Tally.AddAllCount | pkg/utils/utils.go:25-27 | after `freq[k]++` for each element of a list, every count has risen by that key's number of occurrences in the list |
| Tally.AddAllKeys | pkg/utils/utils.go:25-27 | after the increments the keys are the old keys plus the elements of the list |
| Tally.AddAllAppend | pkg/utils/utils.go:44-57 | incrementing for one list and then another is the same as incrementing for their concatenation |
| Sorting.SortDescending | pkg/utils/utils.go:157-159 | the array afterwards is a permutation of the array before, in non-increasing order of the key |
| Utils.Contains | pkg/utils/utils.go:165-172 | the result is true exactly when the item is an element of the slice |
| Utils.LongerThanCount | pkg/utils/utils.go:145-149 | the length filter keeps every occurrence of each string longer than `exclude` and none of the others |
| Utils.LongerThanMembers | pkg/utils/utils.go:145-149 | a string survives the length filter exactly when it occurs in the input and is longer than `exclude` |
| Utils.LongerThanKeepsAll | pkg/utils/utils.go:14-18 | when every string is longer than `exclude`, the filter drops nothing |
| Utils.FirstEntry | pkg/utils/utils.go:107-114 | the inner scan finds the first dictionary entry in list order that occurs at the offset, or reports that none occurs there |
| Utils.SegmentFrom | pkg/utils/utils.go:105-121 | the scan from an offset records at most one string, and that string is a dictionary entry |
| Utils.SegmentWords | pkg/utils/utils.go:102-124 | the method's result equals `Segment`, so it holds at most one entry |
| Utils.SegmentCases | pkg/utils/utils.go:102-124 | the result is empty exactly when no entry occurs at any offset, including for empty input; otherwise it is the first entry matching at the first matching offset |
| Utils.SegmentOfFirstMatch | pkg/utils/utils.go:105-121 | conversely, the first matching offset and the first entry matching there determine the result |
| Utils.SegmentTakesLongest | pkg/utils/utils.go:155-159 | with a dictionary sorted longest first, the recorded entry is a longest entry occurring at that offset |
| Utils.SegmentIgnoresTieOrder | pkg/utils/utils.go:155-159 | two longest-first orders of the same entries segment every input alike |
| Utils.DictionaryMembers | pkg/utils/utils.go:145-149 | a prepared dictionary holds a string exactly when it is a line longer than `exclude` |
| Utils.LoadDict | pkg/utils/utils.go:143-161 | the dictionary is the lines longer than `exclude`, with multiplicity, reordered into non-increasing length |
| Utils.SortItems | pkg/utils/utils.go:71-83 | the result lists every key of the table exactly once, in non-increasing order of count |
| Utils.PrintItems | pkg/utils/utils.go:88-98 | one output line per item longer than `exclude`, in order; with `verbose` each line carries the item's count |
| Utils.LineGain | pkg/utils/utils.go:44-57 | one line adds to a key its occurrences among the long-enough fields (when splitting), one if the key is the line's segment (when parsing) and one if the key is the line; no other key changes |
| Utils.SegmentCount | pkg/utils/utils.go:24-27 | counting a line's segments adds one to a key exactly when the segment list is that single key |
| Utils.ScanCoversLines | pkg/utils/utils.go:44-57 | the scan increments each line's own key at least once per occurrence of the line |
| Utils.ScanNeverDecreases | pkg/utils/utils.go:44-57 | the scan loses no key, adds every line as a key, and raises each count by at least the number of occurrences of the line |
| Utils.ScanKeysIgnoreTieOrder | pkg/utils/utils.go:44-57 | the sequence of increments is the same for any two longest-first orders of one dictionary |
| Utils.FrequenciesIgnoreTieOrder | pkg/utils/utils.go:35-68 | the final table is the same for any two longest-first orders of one dictionary |
| Utils.AddLongerThanEffect | pkg/utils/utils.go:13-20 | counting the long fields adds exactly the long ones as keys and raises each long key's count by its number of occurrences |
| Utils.FrequencyTable.AddNgramCount | pkg/utils/utils.go:13-20 | the table afterwards is the old table incremented for each field longer than `exclude`; the keys and every count are given exactly |
| Utils.FrequencyTable.AddSegmentCount | pkg/utils/utils.go:23-29 | the table afterwards is the old table incremented for the segment, if any; only the segment's key can change, by one |
| Utils.FrequencyTable.RemoveNonDictionaryKeys | pkg/utils/utils.go:59-65 | exactly the keys that are not dictionary entries are deleted; the remaining counts are unchanged |
| Utils.FrequencyTable.CountLine | pkg/utils/utils.go:45-56 | one line's increments: its long fields when splitting, its segment when parsing, then the line |
| Utils.FrequencyTable.CountFrequencies | pkg/utils/utils.go:35-68 | the table afterwards is `Frequencies` of the old table; the dictionary is empty with no file and is otherwise the prepared dictionary of the file's lines |
| UtilsTests.SentenceLiteral | pkg/utils/utils_test.go:12 | the sentence constant equals the test's literal "the quick brown fox jumps over the lazy dog" |
| UtilsTests.UnspacedLiteral | pkg/utils/utils_test.go:26 | the unspaced constant equals the test's literal "thequickbrownfoxjumpsoverthelazydog" |
| UtilsTests.SentenceFields | pkg/utils/utils_test.go:12 | the test sentence splits into its nine words |
| UtilsTests.NgramCountOfSentence | pkg/utils/utils_test.go:10-22 | n-gram counting of the test sentence from an empty table with `exclude` 0 gives the expected table |
| UtilsTests.SegmentOfUnspaced | pkg/utils/utils_test.go:73-81 | the unspaced sentence against `["quick", "lazy", "fox"]` segments to `["quick"]` |
| UtilsTests.SegmentCountOfUnspaced | pkg/utils/utils_test.go:24-35 | counting that segment from an empty table gives `{"quick": 1}` |
| UtilsTests.FrequenciesOfDoubledSentence | pkg/utils/utils_test.go:37-54 | two copies of the sentence, split with no dictionary, give each word twice, "the" four times and the whole line twice |
| UtilsTests.RankingUnique | pkg/utils/utils_test.go:56-71 | two orders by a key of the same strings are equal when no two of the strings share a key |
| UtilsTests.SortItemsOfRanked | pkg/utils/utils_test.go:56-71 | every result `SortItems` may return for the test table is the expected order |
| UtilsTests.FruitMembers | pkg/utils/utils_test.go:83-98 | "banana" is an element of the test slice `["apple", "banana", "cherry"]` and "grape" is not |
| UtilsTests.NgramCountCase | pkg/utils/utils_test.go:10-22 | `AddNgramCount` on the sentence, from a fresh table with `exclude` 0, leaves the expected table |
| UtilsTests.SegmentWordsCase | pkg/utils/utils_test.go:73-81 | `SegmentWords` on the unspaced sentence and `["quick", "lazy", "fox"]` returns `["quick"]` |
| UtilsTests.SegmentCountCase | pkg/utils/utils_test.go:24-35 | `AddSegmentCount` on the unspaced sentence, from a fresh table, leaves `{"quick": 1}` |
| UtilsTests.CountFrequenciesCase | pkg/utils/utils_test.go:37-54 | `CountFrequencies` on two copies of the sentence, splitting, with no dictionary file, from a fresh table, leaves the expected table |
| UtilsTests.SortItemsCase | pkg/utils/utils_test.go:56-71 | `SortItems` on the test table returns the expected order |
| UtilsTests.ContainsCases | pkg/utils/utils_test.go:83-98 | `contains` finds "banana" in the test slice and does not find "grape" |

## Left out

- Reading standard input (`ReadStdin`, the `bufio.Scanner` in `CountFrequencies`) is I/O. The lines it would produce are a parameter.
- Utils.FrequencyTable.CountFrequencies: the loop never checks `stdIn.Err()`. A line longer than the scanner's 64 KiB token limit silently ends the count. `lines` stands for the lines `Scan` yields before any such error.
- Utils.FrequencyTable: it stands for a map made with `make`. A nil `freq` map cannot be represented. In Go a nil map panics with "assignment to entry in nil map" on the first increment: in `AddNgramCount` at the first field longer than `exclude`, in `AddSegmentCount` when a segment is found, and in `CountFrequencies` on its first line. No caller passes nil.
- Opening and scanning the dictionary file in `LoadDict` is I/O. The file's lines are a parameter. `file != ""` still decides whether a dictionary is used.
- `CheckError` prints and calls `os.Exit(0)`, so it is process control. Its error paths (a missing dictionary file, a scanner error) are not modelled.
- Output formatting with `fmt.Printf`/`fmt.Println` is I/O. `PrintItems` returns the lines as `OutputLine` values instead.
- `main.go` is not part of this model: its flags, its goroutines, channel and mutex, and its own counting loop over the gathered lines (`main.go:87-112`).
- `FilterTextForPrint`, `TokenizeParse`, `LoadArgumentFileContents`, `ProcessURL` and `ProcessFile` are `utils` functions whose files are not part of this model. `main.go` only calls them.
- Strings.Fields: only the six ASCII white-space bytes separate fields. Go's `strings.Fields` also splits on non-ASCII Unicode spaces when the input holds multi-byte runes.
- Sorting.SortDescending: the order `sort.Slice`'s pattern-defeating quicksort leaves between equal keys is not modelled; any order with the stated properties is allowed.
- Utils.SortItems: Go's randomised map iteration order is a nondeterministic choice of key, so the model promises nothing about ties beyond the sort's own postcondition.
- Utils.FrequencyTable.RemoveNonDictionaryKeys: Go deletes from the map while ranging over it. The model takes the key set first and deletes from it. The outcome is the same because Go visits each key present at the start at most once.
- Go's `int` is 32 or 64 bits wide, depending on the platform, so a count could wrap around after 2^31 - 1 or 2^63 - 1 increments. The model's counts are unbounded integers.
