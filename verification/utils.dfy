/**
 The counting and segmentation helpers of package `utils`: greedy
 dictionary segmentation, n-gram and segment counting into a frequency
 table, the per-line aggregation loop with its dictionary sweep, ranking
 by count, dictionary preparation and the thresholded output listing.

 Strings are sequences of one `char` per byte, as Go's `len` and slicing
 count them. A frequency table is a `FrequencyTable` object whose `counts`
 map the methods update in place, as the Go functions update the map the
 caller passes in.
 */
module Utils {
  import opened Strings
  import opened Tally
  import opened Sorting

  datatype Option<T> = None | Some(value: T)

  /*
   * Membership
   */

  /** Linear search of `slice` for `item`. */
  method Contains(slice: seq<string>, item: string) returns (found: bool)
    ensures found <==> item in slice
  {
    for k := 0 to |slice|
      invariant item !in slice[..k]
    {
      if slice[k] == item {
        return true;
      }
    }
    return false;
  }

  /*
   * Length filter
   */

  /** The elements of `ws` longer than `exclude`, in their order in `ws`. */
  function LongerThan(ws: seq<string>, exclude: int): seq<string>
    decreases |ws|
  {
    if ws == [] then []
    else
      var last := ws[|ws| - 1];
      LongerThan(ws[..|ws| - 1], exclude) + (if |last| > exclude then [last] else [])
  }

  /** `LongerThan` keeps each element longer than `exclude` as often as
      it occurs in `ws`, and nothing else. */
  lemma {:induction false} LongerThanCount(ws: seq<string>, exclude: int, w: string)
    ensures multiset(LongerThan(ws, exclude))[w] == if |w| > exclude then multiset(ws)[w] else 0
    decreases |ws|
  {
    if ws != [] {
      var init := ws[..|ws| - 1];
      assert ws == init + [ws[|ws| - 1]];
      LongerThanCount(init, exclude, w);
    }
  }

  /** When every element is longer than `exclude`, nothing is dropped. */
  lemma {:induction false} LongerThanKeepsAll(ws: seq<string>, exclude: int)
    requires forall i | 0 <= i < |ws| :: |ws[i]| > exclude
    ensures LongerThan(ws, exclude) == ws
    decreases |ws|
  {
    if ws != [] {
      var init := ws[..|ws| - 1];
      LongerThanKeepsAll(init, exclude);
      assert ws == init + [ws[|ws| - 1]];
    }
  }

  lemma LongerThanPrefix(ws: seq<string>, exclude: int, n: nat)
    requires n < |ws|
    ensures |ws[n]| > exclude ==> LongerThan(ws[..n + 1], exclude) == LongerThan(ws[..n], exclude) + [ws[n]]
    ensures |ws[n]| <= exclude ==> LongerThan(ws[..n + 1], exclude) == LongerThan(ws[..n], exclude)
  {
    assert ws[..n + 1][..n] == ws[..n];
    assert LongerThan(ws[..n], exclude) + [] == LongerThan(ws[..n], exclude);
  }

  /** An element is kept exactly when it occurs in `ws` and is longer
      than `exclude`. */
  lemma LongerThanMembers(ws: seq<string>, exclude: int)
    ensures forall w :: w in LongerThan(ws, exclude) <==> w in ws && |w| > exclude
  {
    forall w ensures w in LongerThan(ws, exclude) <==> w in ws && |w| > exclude {
      LongerThanCount(ws, exclude, w);
      assert w in LongerThan(ws, exclude) <==> w in multiset(LongerThan(ws, exclude));
      assert w in ws <==> w in multiset(ws);
    }
  }

  /*
   * Greedy dictionary segmentation
   */

  /** Dictionary entry `word` occurs in `input` at byte offset `i`. */
  predicate MatchesAt(input: string, word: string, i: nat) {
    |word| <= |input| - i && input[i..i + |word|] == word
  }

  /** No dictionary entry occurs in `input` at offset `p`. */
  predicate NoMatchAt(input: string, words: seq<string>, p: nat) {
    forall w | w in words :: !MatchesAt(input, w, p)
  }

  /** Offset `p` is the first at which some entry occurs, and `words[j]`
      is the first entry, in list order, that occurs there. */
  predicate IsFirstMatch(input: string, words: seq<string>, p: nat, j: nat) {
    && p < |input|
    && j < |words|
    && MatchesAt(input, words[j], p)
    && (forall q: nat | q < p :: NoMatchAt(input, words, q))
    && (forall k | 0 <= k < j :: !MatchesAt(input, words[k], p))
  }

  /** Index of the first entry of `words` that occurs at offset `i`. */
  function FirstEntry(input: string, words: seq<string>, i: nat): (r: Option<nat>)
    ensures r.Some? ==> r.value < |words| && MatchesAt(input, words[r.value], i)
    ensures r.Some? ==> forall k | 0 <= k < r.value :: !MatchesAt(input, words[k], i)
    ensures r.None? ==> NoMatchAt(input, words, i)
    decreases |words|
  {
    if words == [] then None
    else if MatchesAt(input, words[0], i) then Some(0)
    else match FirstEntry(input, words[1..], i)
      case None => None
      case Some(k) => Some(k + 1)
  }

  /** What the scan from offset `i` on records: the first entry found at
      the first offset where one occurs, and nothing after it. */
  function SegmentFrom(input: string, words: seq<string>, i: nat): (r: seq<string>)
    ensures |r| <= 1
    ensures forall w | w in r :: w in words
    decreases |input| - i
  {
    if i >= |input| then []
    else match FirstEntry(input, words, i)
      case Some(j) => [words[j]]
      case None => SegmentFrom(input, words, i + 1)
  }

  /** The segments `SegmentWords` returns for `input`. */
  function Segment(input: string, words: seq<string>): seq<string> {
    SegmentFrom(input, words, 0)
  }

  /** Scans `input` left to right; at each offset tries the entries in list
      order and records the first that occurs there. The scan stops after
      the first recorded entry, so at most one segment is returned. */
  method SegmentWords(input: string, words: seq<string>) returns (result: seq<string>)
    ensures result == Segment(input, words)
    ensures |result| <= 1
  {
    result := [];
    var i := 0;
    while i < |input|
      invariant 0 <= i <= |input|
      invariant result == []
      invariant SegmentFrom(input, words, i) == Segment(input, words)
    {
      var matched := false;
      var j := 0;
      while j < |words|
        invariant 0 <= j <= |words|
        invariant !matched && result == []
        invariant forall k | 0 <= k < j :: !MatchesAt(input, words[k], i)
      {
        var word := words[j];
        if |word| <= |input| - i && input[i..i + |word|] == word {
          assert MatchesAt(input, words[j], i) && words[j] in words;
          assert FirstEntry(input, words, i) == Some(j);
          result := result + [word];
          assert result == Segment(input, words);
          i := i + |word|;
          matched := true;
          break;
        }
        j := j + 1;
      }
      if !matched {
        i := i + 1;
      } else {
        break;
      }
    }
  }

  lemma {:induction false} SegmentFromCases(input: string, words: seq<string>, i: nat)
    requires forall q: nat | q < i && q < |input| :: NoMatchAt(input, words, q)
    ensures SegmentFrom(input, words, i) == [] <==>
              forall q: nat | i <= q < |input| :: NoMatchAt(input, words, q)
    ensures SegmentFrom(input, words, i) != [] ==>
              exists p: nat, j: nat :: IsFirstMatch(input, words, p, j) && SegmentFrom(input, words, i) == [words[j]]
    decreases |input| - i
  {
    if i < |input| {
      match FirstEntry(input, words, i)
      case Some(j) =>
        assert words[j] in words;
        assert !NoMatchAt(input, words, i);
        assert IsFirstMatch(input, words, i, j);
      case None =>
        SegmentFromCases(input, words, i + 1);
    }
  }

  /** `Segment` returns at most one entry; none exactly when no entry
      occurs anywhere in `input` (in particular when `input` is empty);
      otherwise the first entry occurring at the first offset where one
      occurs. */
  lemma SegmentCases(input: string, words: seq<string>)
    ensures |Segment(input, words)| <= 1
    ensures Segment(input, words) == [] <==> forall p: nat | p < |input| :: NoMatchAt(input, words, p)
    ensures Segment(input, words) != [] ==>
              exists p: nat, j: nat :: IsFirstMatch(input, words, p, j) && Segment(input, words) == [words[j]]
  {
    SegmentFromCases(input, words, 0);
  }

  lemma {:induction false} SegmentFromBeforeMatch(input: string, words: seq<string>, p: nat, j: nat, i: nat)
    requires IsFirstMatch(input, words, p, j) && i <= p
    ensures SegmentFrom(input, words, i) == [words[j]]
    decreases p - i
  {
    if i < p {
      assert NoMatchAt(input, words, i);
      SegmentFromBeforeMatch(input, words, p, j, i + 1);
    } else {
      assert words[j] in words;
      assert FirstEntry(input, words, i) == Some(j);
    }
  }

  /** Conversely, the first match determines the result. */
  lemma SegmentOfFirstMatch(input: string, words: seq<string>, p: nat, j: nat)
    requires IsFirstMatch(input, words, p, j)
    ensures Segment(input, words) == [words[j]]
  {
    SegmentFromBeforeMatch(input, words, p, j, 0);
  }

  /** The length of a string, as a sort key. */
  function Length(s: string): int {
    |s|
  }

  /** With the dictionary in non-increasing order of length, the entry
      recorded is a longest entry occurring at that offset. */
  lemma SegmentTakesLongest(input: string, words: seq<string>, p: nat, j: nat)
    requires SortedBy(words, Length)
    requires IsFirstMatch(input, words, p, j)
    ensures forall w | w in words && MatchesAt(input, w, p) :: |w| <= |words[j]|
  {
    forall w | w in words && MatchesAt(input, w, p) ensures |w| <= |words[j]| {
      var k :| 0 <= k < |words| && words[k] == w;
      assert !(k < j);
      if j < k {
        assert Length(words[j]) >= Length(words[k]);
      }
    }
  }

  lemma SameEntries(d1: seq<string>, d2: seq<string>)
    requires multiset(d1) == multiset(d2)
    ensures forall w :: w in d1 <==> w in d2
  {
    forall w ensures w in d1 <==> w in d2 {
      assert w in d1 <==> w in multiset(d1);
      assert w in d2 <==> w in multiset(d2);
    }
  }

  lemma FirstMatchesAgree(input: string, d1: seq<string>, d2: seq<string>, p1: nat, j1: nat, p2: nat, j2: nat)
    requires SortedBy(d1, Length) && SortedBy(d2, Length)
    requires forall w :: w in d1 <==> w in d2
    requires IsFirstMatch(input, d1, p1, j1) && IsFirstMatch(input, d2, p2, j2)
    ensures d1[j1] == d2[j2]
  {
    assert d1[j1] in d2 && d2[j2] in d1;
    assert p1 < p2 ==> NoMatchAt(input, d2, p1);
    assert p2 < p1 ==> NoMatchAt(input, d1, p2);
    assert p1 == p2;
    SegmentTakesLongest(input, d1, p1, j1);
    SegmentTakesLongest(input, d2, p2, j2);
    assert |d1[j1]| == |d2[j2]|;
    assert d1[j1] == input[p1..p1 + |d1[j1]|] == d2[j2];
  }

  /** Two dictionaries with the same entries, both in non-increasing order
      of length, segment every input alike: the order `sort.Slice` leaves
      between entries of equal length does not matter. */
  lemma SegmentIgnoresTieOrder(input: string, d1: seq<string>, d2: seq<string>)
    requires SortedBy(d1, Length) && SortedBy(d2, Length)
    requires multiset(d1) == multiset(d2)
    ensures Segment(input, d1) == Segment(input, d2)
  {
    SameEntries(d1, d2);
    SegmentCases(input, d1);
    SegmentCases(input, d2);
    assert forall p: nat :: NoMatchAt(input, d1, p) == NoMatchAt(input, d2, p);
    if Segment(input, d1) != [] {
      var p1: nat, j1: nat :| IsFirstMatch(input, d1, p1, j1) && Segment(input, d1) == [d1[j1]];
      var p2: nat, j2: nat :| IsFirstMatch(input, d2, p2, j2) && Segment(input, d2) == [d2[j2]];
      FirstMatchesAgree(input, d1, d2, p1, j1, p2, j2);
    }
  }

  /*
   * Dictionary preparation
   */

  /** `dict` holds the lines longer than `exclude`, each as often as it
      occurs among them, in non-increasing order of length. */
  predicate IsDictionary(lines: seq<string>, exclude: int, dict: seq<string>) {
    multiset(dict) == multiset(LongerThan(lines, exclude)) && SortedBy(dict, Length)
  }

  /** A dictionary holds exactly the lines longer than `exclude`. */
  lemma DictionaryMembers(lines: seq<string>, exclude: int, dict: seq<string>)
    requires IsDictionary(lines, exclude, dict)
    ensures forall w :: w in dict <==> w in lines && |w| > exclude
  {
    LongerThanMembers(lines, exclude);
    forall w ensures w in dict <==> w in LongerThan(lines, exclude) {
      assert w in dict <==> w in multiset(dict);
      assert w in LongerThan(lines, exclude) <==> w in multiset(LongerThan(lines, exclude));
    }
  }

  /** Keeps the lines longer than `exclude`, then sorts them longest first. */
  method LoadDict(lines: seq<string>, exclude: int) returns (dict: seq<string>)
    ensures IsDictionary(lines, exclude, dict)
  {
    var kept: seq<string> := [];
    for n := 0 to |lines|
      invariant kept == LongerThan(lines[..n], exclude)
    {
      LongerThanPrefix(lines, exclude, n);
      if |lines[n]| > exclude {
        kept := kept + [lines[n]];
      }
    }
    assert lines[..|lines|] == lines;
    var a := new string[|kept|](k requires 0 <= k < |kept| => kept[k]);
    assert a[..] == kept;
    SortDescending(a, Length);
    dict := a[..];
  }

  /*
   * Ranking and output
   */

  /** The keys of `freq`, each exactly once, in non-increasing order of
      count. */
  method SortItems(freq: Table) returns (items: seq<string>)
    ensures multiset(items) == multiset(freq.Keys)
    ensures forall i, j | 0 <= i < j < |items| :: Count(freq, items[i]) >= Count(freq, items[j])
  {
    items := [];
    var rest := freq.Keys;
    while rest != {}
      invariant rest <= freq.Keys
      invariant forall k :: multiset(items)[k] == if k in freq.Keys - rest then 1 else 0
      decreases rest
    {
      var item :| item in rest;
      items := items + [item];
      rest := rest - {item};
    }
    var a := new string[|items|](k requires 0 <= k < |items| => items[k]);
    assert a[..] == items;
    SortDescending(a, k => Count(freq, k));
    items := a[..];
    forall k ensures multiset(items)[k] == multiset(freq.Keys)[k] {
    }
  }

  /** One line of output: `"<count> <item>"` when counts are shown,
      `"<item>"` otherwise. */
  datatype OutputLine = WithCount(count: int, item: string) | Plain(item: string)

  function Render(item: string, freq: Table, verbose: bool): OutputLine {
    if verbose then WithCount(Count(freq, item), item) else Plain(item)
  }

  /** The output lines for the items longer than `exclude`, in order. */
  method PrintItems(items: seq<string>, freq: Table, verbose: bool, exclude: int) returns (out: seq<OutputLine>)
    ensures |out| == |LongerThan(items, exclude)|
    ensures forall n | 0 <= n < |out| :: out[n] == Render(LongerThan(items, exclude)[n], freq, verbose)
  {
    out := [];
    for n := 0 to |items|
      invariant |out| == |LongerThan(items[..n], exclude)|
      invariant forall m | 0 <= m < |out| :: out[m] == Render(LongerThan(items[..n], exclude)[m], freq, verbose)
    {
      LongerThanPrefix(items, exclude, n);
      var item := items[n];
      if |item| > exclude {
        out := out + [Render(item, freq, verbose)];
      }
    }
    assert items[..|items|] == items;
  }

  /*
   * Aggregation
   */

  /** The keys one input line increments, in order: its long-enough
      fields when splitting, its segment when parsing, then the line. */
  function LineKeys(item: string, split: bool, parse: bool, dict: seq<string>, exclude: int): seq<string> {
    (if split then LongerThan(Fields(item), exclude) else [])
    + (if parse then Segment(item, dict) else [])
    + [item]
  }

  /** The keys the scan over `lines` increments, line after line. */
  function ScanKeys(lines: seq<string>, split: bool, parse: bool, dict: seq<string>, exclude: int): seq<string>
    decreases |lines|
  {
    if lines == [] then []
    else ScanKeys(lines[..|lines| - 1], split, parse, dict, exclude)
         + LineKeys(lines[|lines| - 1], split, parse, dict, exclude)
  }

  /** The entries of `m` whose key is in `dict`. */
  function Sweep(m: Table, dict: seq<string>): Table {
    map k | k in m && k in dict :: m[k]
  }

  /** The table `CountFrequencies` leaves: the scan's increments, then
      the sweep when both `includeOnly` and `parse` hold. */
  function Frequencies(m: Table, lines: seq<string>, split: bool, parse: bool, dict: seq<string>,
                       exclude: int, includeOnly: bool): Table
  {
    var scanned := AddAll(m, ScanKeys(lines, split, parse, dict, exclude));
    if includeOnly && parse then Sweep(scanned, dict) else scanned
  }

  /** A line adds one to its own key, on top of one for each of its
      fields equal to the key and longer than `exclude` (when splitting)
      and one when its segment is the key (when parsing); no other key
      changes. */
  lemma LineGain(m: Table, item: string, split: bool, parse: bool, dict: seq<string>, exclude: int, k: string)
    ensures Count(AddAll(m, LineKeys(item, split, parse, dict, exclude)), k) ==
            Count(m, k)
            + (if split && |k| > exclude then multiset(Fields(item))[k] else 0)
            + (if parse && Segment(item, dict) == [k] then 1 else 0)
            + (if k == item then 1 else 0)
  {
    var ngrams := if split then LongerThan(Fields(item), exclude) else [];
    var segs := if parse then Segment(item, dict) else [];
    var keys := LineKeys(item, split, parse, dict, exclude);
    assert keys == ngrams + segs + [item];
    assert multiset(keys)[k] == multiset(ngrams)[k] + multiset(segs)[k] + multiset([item])[k];
    AddAllCount(m, keys, k);
    if split {
      LongerThanCount(Fields(item), exclude, k);
    }
    if parse {
      SegmentCount(item, dict, k);
    }
  }

  /** A segment holds `k` once when it is `[k]`, and otherwise not at all. */
  lemma SegmentCount(item: string, dict: seq<string>, k: string)
    ensures multiset(Segment(item, dict))[k] == if Segment(item, dict) == [k] then 1 else 0
  {
    var seg := Segment(item, dict);
    if seg != [] {
      assert seg == [seg[0]];
    }
  }

  lemma {:induction false} ScanCoversLines(lines: seq<string>, split: bool, parse: bool, dict: seq<string>,
                                            exclude: int, k: string)
    ensures multiset(ScanKeys(lines, split, parse, dict, exclude))[k] >= multiset(lines)[k]
    decreases |lines|
  {
    if lines != [] {
      var init := lines[..|lines| - 1];
      assert lines == init + [lines[|lines| - 1]];
      ScanCoversLines(init, split, parse, dict, exclude, k);
    }
  }

  /** Over the scan no count decreases, no key disappears, and every line
      adds at least one to its own key. */
  lemma ScanNeverDecreases(m: Table, lines: seq<string>, split: bool, parse: bool, dict: seq<string>, exclude: int)
    ensures var scanned := AddAll(m, ScanKeys(lines, split, parse, dict, exclude));
            && m.Keys <= scanned.Keys
            && (forall l | l in lines :: l in scanned)
            && (forall k :: Count(scanned, k) >= Count(m, k) + multiset(lines)[k])
  {
    var keys := ScanKeys(lines, split, parse, dict, exclude);
    AddAllEffect(m, keys);
    forall k ensures multiset(keys)[k] >= multiset(lines)[k] {
      ScanCoversLines(lines, split, parse, dict, exclude, k);
    }
    forall l | l in lines ensures l in keys {
      assert l in multiset(lines);
    }
  }

  lemma {:induction false} ScanKeysIgnoreTieOrder(lines: seq<string>, split: bool, parse: bool,
                                                  d1: seq<string>, d2: seq<string>, exclude: int)
    requires SortedBy(d1, Length) && SortedBy(d2, Length)
    requires multiset(d1) == multiset(d2)
    ensures ScanKeys(lines, split, parse, d1, exclude) == ScanKeys(lines, split, parse, d2, exclude)
    decreases |lines|
  {
    if lines != [] {
      ScanKeysIgnoreTieOrder(lines[..|lines| - 1], split, parse, d1, d2, exclude);
      SegmentIgnoresTieOrder(lines[|lines| - 1], d1, d2);
    }
  }

  /** The final table does not depend on how `sort.Slice` ordered
      dictionary entries of equal length. */
  lemma FrequenciesIgnoreTieOrder(m: Table, lines: seq<string>, split: bool, parse: bool,
                                  d1: seq<string>, d2: seq<string>, exclude: int, includeOnly: bool)
    requires SortedBy(d1, Length) && SortedBy(d2, Length)
    requires multiset(d1) == multiset(d2)
    ensures Frequencies(m, lines, split, parse, d1, exclude, includeOnly)
         == Frequencies(m, lines, split, parse, d2, exclude, includeOnly)
  {
    ScanKeysIgnoreTieOrder(lines, split, parse, d1, d2, exclude);
    SameEntries(d1, d2);
  }

  /** Incrementing for the elements of `ws` longer than `exclude`: the
      keys gained and the amount each count goes up by. */
  lemma AddLongerThanEffect(m: Table, ws: seq<string>, exclude: int)
    ensures AddAll(m, LongerThan(ws, exclude)).Keys == m.Keys + set w | w in ws && |w| > exclude
    ensures forall k :: Count(AddAll(m, LongerThan(ws, exclude)), k) ==
              Count(m, k) + (if |k| > exclude then multiset(ws)[k] else 0)
  {
    var long := LongerThan(ws, exclude);
    AddAllEffect(m, long);
    LongerThanMembers(ws, exclude);
    assert (set w | w in long) == set w | w in ws && |w| > exclude;
    forall k ensures multiset(long)[k] == if |k| > exclude then multiset(ws)[k] else 0 {
      LongerThanCount(ws, exclude, k);
    }
  }

  lemma ScanStep(m: Table, lines: seq<string>, n: nat, split: bool, parse: bool, dict: seq<string>, exclude: int)
    requires n < |lines|
    ensures AddAll(m, ScanKeys(lines[..n + 1], split, parse, dict, exclude))
         == AddAll(AddAll(m, ScanKeys(lines[..n], split, parse, dict, exclude)),
                   LineKeys(lines[n], split, parse, dict, exclude))
  {
    assert lines[..n + 1][..n] == lines[..n];
    AddAllAppend(m, ScanKeys(lines[..n], split, parse, dict, exclude), LineKeys(lines[n], split, parse, dict, exclude));
  }

  lemma LineStep(m: Table, item: string, split: bool, parse: bool, dict: seq<string>, exclude: int)
    ensures AddAll(m, LineKeys(item, split, parse, dict, exclude))
         == Inc(AddAll(AddAll(m, if split then LongerThan(Fields(item), exclude) else []),
                       if parse then Segment(item, dict) else []), item)
  {
    var ngrams := if split then LongerThan(Fields(item), exclude) else [];
    var segs := if parse then Segment(item, dict) else [];
    AddAllAppend(m, ngrams, segs);
    AddAllSnoc(m, ngrams + segs, item);
  }

  /** A frequency table: the map the Go functions receive and update. */
  class FrequencyTable {
    var counts: Table

    constructor ()
      ensures counts == map[]
    {
      counts := map[];
    }

    /** Increments the count of every whitespace-separated field of `item`
        longer than `exclude`. */
    method AddNgramCount(item: string, exclude: int)
      modifies this
      ensures counts == AddAll(old(counts), LongerThan(Fields(item), exclude))
      ensures counts.Keys == old(counts).Keys + set w | w in Fields(item) && |w| > exclude
      ensures forall k :: Count(counts, k) ==
                Count(old(counts), k) + (if |k| > exclude then multiset(Fields(item))[k] else 0)
    {
      var ngrams := Fields(item);
      for n := 0 to |ngrams|
        invariant counts == AddAll(old(counts), LongerThan(ngrams[..n], exclude))
      {
        LongerThanPrefix(ngrams, exclude, n);
        var ngram := ngrams[n];
        if |ngram| > exclude {
          AddAllSnoc(old(counts), LongerThan(ngrams[..n], exclude), ngram);
          counts := Inc(counts, ngram);
        }
      }
      assert ngrams[..|ngrams|] == ngrams;
      AddLongerThanEffect(old(counts), ngrams, exclude);
    }

    /** Increments the count of the segment `SegmentWords` finds in
        `item`, if any: at most one key changes, by one. */
    method AddSegmentCount(item: string, dict: seq<string>)
      modifies this
      ensures counts == AddAll(old(counts), Segment(item, dict))
      ensures counts.Keys == old(counts).Keys + set w | w in Segment(item, dict)
      ensures forall k :: Count(counts, k) ==
                Count(old(counts), k) + (if Segment(item, dict) == [k] then 1 else 0)
    {
      var segments := SegmentWords(item, dict);
      for n := 0 to |segments|
        invariant counts == AddAll(old(counts), segments[..n])
      {
        assert segments[..n + 1][..n] == segments[..n];
        counts := Inc(counts, segments[n]);
      }
      assert segments[..|segments|] == segments;
      AddAllEffect(old(counts), segments);
      forall k ensures multiset(segments)[k] == if segments == [k] then 1 else 0 {
        SegmentCount(item, dict, k);
      }
    }

    /** Deletes every key that is not an entry of `dict`. */
    method RemoveNonDictionaryKeys(dict: seq<string>)
      modifies this
      ensures counts == Sweep(old(counts), dict)
      ensures forall k :: k in counts <==> k in old(counts) && k in dict
      ensures forall k | k in counts :: counts[k] == old(counts)[k]
    {
      var keys := counts.Keys;
      while keys != {}
        invariant keys <= old(counts).Keys
        invariant counts == map k | k in old(counts) && (k in keys || k in dict) :: old(counts)[k]
        decreases keys
      {
        var key :| key in keys;
        var found := Contains(dict, key);
        if !found {
          counts := counts - {key};
        }
        keys := keys - {key};
      }
    }

    /** The body of the loop of `CountFrequencies`, for one line: its
        n-grams when `split`, its segment when `parse`, then the line. */
    method CountLine(item: string, split: bool, parse: bool, words: seq<string>, exclude: int)
      modifies this
      ensures counts == AddAll(old(counts), LineKeys(item, split, parse, words, exclude))
    {
      LineStep(counts, item, split, parse, words, exclude);
      if split && parse {
        AddNgramCount(item, exclude);
        AddSegmentCount(item, words);
      } else if split {
        AddNgramCount(item, exclude);
      } else if parse {
        AddSegmentCount(item, words);
      }
      counts := Inc(counts, item);
    }

    /** Counts every line of `lines`: its fields when `split`, its
        segment when a dictionary file is named, and the line itself;
        then, when `includeOnly` holds and a dictionary file is named, keeps
        only dictionary entries. `dictLines` are the lines of the
        dictionary file; `dict` is the dictionary built from them. */
    method CountFrequencies(lines: seq<string>, split: bool, file: string, dictLines: seq<string>,
                            exclude: int, includeOnly: bool) returns (ghost dict: seq<string>)
      modifies this
      ensures file == "" ==> dict == []
      ensures file != "" ==> IsDictionary(dictLines, exclude, dict)
      ensures counts == Frequencies(old(counts), lines, split, file != "", dict, exclude, includeOnly)
    {
      var words: seq<string> := [];
      var parse := false;

      if file != "" {
        parse := true;
        words := LoadDict(dictLines, exclude);
      }
      dict := words;

      for n := 0 to |lines|
        invariant counts == AddAll(old(counts), ScanKeys(lines[..n], split, parse, words, exclude))
      {
        ScanStep(old(counts), lines, n, split, parse, words, exclude);
        CountLine(lines[n], split, parse, words, exclude);
      }
      assert lines[..|lines|] == lines;

      if includeOnly && parse {
        RemoveNonDictionaryKeys(words);
      }
    }
  }
}
