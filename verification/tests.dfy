/**
 The regression cases of package `utils`, stated as lemmas about the
 model: what the specification functions give for the literal inputs, and
 what any result meeting the methods' postconditions must be.
 */
module UtilsTests {
  import opened Strings
  import opened Tally
  import opened Sorting
  import opened Utils

  const SentenceWords: seq<string> := ["the", "quick", "brown", "fox", "jumps", "over", "the", "lazy", "dog"]

  /** "the quick brown fox jumps over the lazy dog", written word by word. */
  const Sentence: string :=
    "the" + " " + ("quick" + " " + ("brown" + " " + ("fox" + " " + ("jumps" + " " + ("over" + " "
    + ("the" + " " + ("lazy" + " " + "dog")))))))

  /** "thequickbrownfoxjumpsoverthelazydog", with its first two words apart. */
  const Unspaced: string := "the" + ("quick" + "brownfoxjumpsoverthelazydog")
  const SmallDict: seq<string> := ["quick", "lazy", "fox"]

  /** A string is its first `n` characters followed by the rest. */
  lemma Peel(s: string, n: nat, head: string, tail: string)
    requires n <= |s| && s[..n] == head && s[n..] == tail
    ensures s == head + tail
  {
    assert s == s[..n] + s[n..];
  }

  /** The sentence literal, taken apart from its last word back to its
      first. */
  lemma SentenceWordsOfLiteral()
    ensures "the quick brown fox jumps over the lazy dog" == "the quick brown fox jumps over the lazy" + " dog"
    ensures "the quick brown fox jumps over the lazy" == "the quick brown fox jumps over the" + " lazy"
    ensures "the quick brown fox jumps over the" == "the quick brown fox jumps over" + " the"
    ensures "the quick brown fox jumps over" == "the quick brown fox jumps" + " over"
    ensures "the quick brown fox jumps" == "the quick brown fox" + " jumps"
    ensures "the quick brown fox" == "the quick brown" + " fox"
    ensures "the quick brown" == "the quick" + " brown"
    ensures "the quick" == "the" + " quick"
  {
    Peel("the quick brown fox jumps over the lazy dog", 39, "the quick brown fox jumps over the lazy", " dog");
    Peel("the quick brown fox jumps over the lazy", 34, "the quick brown fox jumps over the", " lazy");
    Peel("the quick brown fox jumps over the", 30, "the quick brown fox jumps over", " the");
    Peel("the quick brown fox jumps over", 25, "the quick brown fox jumps", " over");
    Peel("the quick brown fox jumps", 19, "the quick brown fox", " jumps");
    Peel("the quick brown fox", 15, "the quick brown", " fox");
    Peel("the quick brown", 9, "the quick", " brown");
    Peel("the quick", 3, "the", " quick");
  }

  /** `Sentence` is the test's sentence literal. */
  lemma SentenceLiteral()
    ensures Sentence == "the quick brown fox jumps over the lazy dog"
  {
    SentenceWordsOfLiteral();
  }

  lemma UnspacedOfLiteral()
    ensures "thequickbrownfoxjumpsoverthelazydog" == "thequick" + "brownfoxjumpsoverthelazydog"
    ensures "thequick" == "the" + "quick"
  {
    Peel("thequickbrownfoxjumpsoverthelazydog", 8, "thequick", "brownfoxjumpsoverthelazydog");
    Peel("thequick", 3, "the", "quick");
  }

  /** `Unspaced` is the test's unspaced literal. */
  lemma UnspacedLiteral()
    ensures Unspaced == "thequickbrownfoxjumpsoverthelazydog"
  {
    UnspacedOfLiteral();
  }

  lemma TablesEqual(m1: Table, m2: Table)
    requires m1.Keys == m2.Keys
    requires forall k | k in m1 :: Count(m1, k) == Count(m2, k)
    ensures m1 == m2
  {
  }

  lemma JoinSentence()
    ensures JoinSpaced(SentenceWords) == Sentence
  {
    var ws := SentenceWords;
    assert ws[8..] == ["dog"];
    assert ws[7..][1..] == ws[8..];
    assert ws[6..][1..] == ws[7..];
    assert ws[5..][1..] == ws[6..];
    assert ws[4..][1..] == ws[5..];
    assert ws[3..][1..] == ws[4..];
    assert ws[2..][1..] == ws[3..];
    assert ws[1..][1..] == ws[2..];
    assert JoinSpaced(ws[7..]) == "lazy" + " " + "dog";
    assert JoinSpaced(ws[6..]) == "the" + " " + ("lazy" + " " + "dog");
    assert JoinSpaced(ws[5..]) == "over" + " " + ("the" + " " + ("lazy" + " " + "dog"));
    assert JoinSpaced(ws[4..]) == "jumps" + " " + ("over" + " " + ("the" + " " + ("lazy" + " " + "dog")));
    assert JoinSpaced(ws[3..])
        == "fox" + " " + ("jumps" + " " + ("over" + " " + ("the" + " " + ("lazy" + " " + "dog"))));
    assert JoinSpaced(ws[2..])
        == "brown" + " " + ("fox" + " " + ("jumps" + " " + ("over" + " " + ("the" + " " + ("lazy" + " " + "dog")))));
    assert JoinSpaced(ws[1..])
        == "quick" + " " + ("brown" + " " + ("fox" + " " + ("jumps" + " " + ("over" + " "
           + ("the" + " " + ("lazy" + " " + "dog"))))));
  }

  lemma SentenceWordsAreWords()
    ensures forall k | 0 <= k < |SentenceWords| :: SentenceWords[k] != [] && NoSpace(SentenceWords[k])
  {
    forall k | 0 <= k < |SentenceWords| ensures SentenceWords[k] != [] && NoSpace(SentenceWords[k]) {
      var w := SentenceWords[k];
      assert forall i | 0 <= i < |w| :: 'a' <= w[i] <= 'z';
    }
  }

  /** The sentence splits into its nine words. */
  lemma SentenceFields()
    ensures Fields(Sentence) == SentenceWords
  {
    JoinSentence();
    SentenceWordsAreWords();
    FieldsOfJoin(SentenceWords);
  }

  const SentenceTable: Table :=
    map["the" := 2, "quick" := 1, "brown" := 1, "fox" := 1, "jumps" := 1, "over" := 1, "lazy" := 1, "dog" := 1]

  lemma SentenceKeys()
    ensures (set w | w in SentenceWords) == SentenceTable.Keys
  {
  }

  lemma SentenceCounts()
    ensures forall k | k in SentenceTable :: SentenceTable[k] == multiset(SentenceWords)[k]
  {
    assert multiset(SentenceWords)["the"] == 2;
    assert multiset(SentenceWords)["quick"] == 1;
    assert multiset(SentenceWords)["brown"] == 1;
    assert multiset(SentenceWords)["fox"] == 1;
    assert multiset(SentenceWords)["jumps"] == 1;
    assert multiset(SentenceWords)["over"] == 1;
    assert multiset(SentenceWords)["lazy"] == 1;
    assert multiset(SentenceWords)["dog"] == 1;
  }

  /** Counting the words of the sentence, given as `ws`. */
  lemma WordTable(ws: seq<string>)
    requires ws == SentenceWords
    ensures AddAll(map[], ws) == SentenceTable
  {
    var r := AddAll(map[], ws);
    AddAllEffect(map[], ws);
    SentenceKeys();
    assert r.Keys == SentenceTable.Keys;
    forall k | k in r ensures Count(r, k) == Count(SentenceTable, k) {
      SentenceCounts();
    }
    TablesEqual(r, SentenceTable);
  }

  /** Counting the n-grams of the sentence with no length exclusion:
      "the" twice, every other word once, nothing else. */
  lemma NgramCountOfSentence()
    ensures AddAll(map[], LongerThan(Fields(Sentence), 0)) == SentenceTable
  {
    SentenceFields();
    SentenceWordsAreWords();
    LongerThanKeepsAll(SentenceWords, 0);
    WordTable(SentenceWords);
  }

  /** The unspaced sentence against ["quick", "lazy", "fox"]: "quick" at
      offset 3 is the first match, and the only segment. */
  lemma SegmentOfUnspaced()
    ensures Segment(Unspaced, SmallDict) == ["quick"]
  {
    forall q: nat | q < 3 ensures NoMatchAt(Unspaced, SmallDict, q) {
      assert Unspaced[q] != 'q' && Unspaced[q] != 'l' && Unspaced[q] != 'f';
      forall w | w in SmallDict ensures !MatchesAt(Unspaced, w, q) {
        assert w[0] in "qlf";
      }
    }
    assert Unspaced[3..8] == "quick";
    assert IsFirstMatch(Unspaced, SmallDict, 3, 0);
    SegmentOfFirstMatch(Unspaced, SmallDict, 3, 0);
  }

  /** Counting the segments of the unspaced sentence: "quick" once. */
  lemma SegmentCountOfUnspaced()
    ensures AddAll(map[], Segment(Unspaced, SmallDict)) == map["quick" := 1]
  {
    SegmentOfUnspaced();
    AddAllSnoc(map[], [], "quick");
    assert [] + ["quick"] == ["quick"];
  }

  lemma SentenceIsNoWord()
    ensures Sentence !in SentenceTable
  {
    assert |Sentence| == 43;
    assert forall k | k in SentenceTable :: |k| <= 5;
  }

  const DoubledTable: Table :=
    map["the" := 4, "quick" := 2, "brown" := 2, "fox" := 2,
        "jumps" := 2, "over" := 2, "lazy" := 2, "dog" := 2, Sentence := 2]

  /** The words of the sentence, each non-empty, occur as often as the
      sentence table counts them. */
  lemma SentenceWordCounts()
    ensures (set w | w in LongerThan(SentenceWords, 0)) == SentenceTable.Keys
    ensures forall k :: multiset(LongerThan(SentenceWords, 0))[k] == Count(SentenceTable, k)
  {
    NgramCountOfSentence();
    SentenceFields();
    AddAllEffect(map[], LongerThan(SentenceWords, 0));
  }

  /** The keys of one line of the sentence: its words, then the line. */
  lemma SentenceLine()
    ensures LineKeys(Sentence, true, false, [], 0) == LongerThan(SentenceWords, 0) + [Sentence]
  {
    SentenceFields();
  }

  /** One pass over the line, from an empty table. */
  lemma FirstPass()
    ensures AddAll(map[], LineKeys(Sentence, true, false, [], 0)) == SentenceTable[Sentence := 1]
  {
    SentenceLine();
    NgramCountOfSentence();
    SentenceFields();
    SentenceIsNoWord();
    AddAllSnoc(map[], LongerThan(SentenceWords, 0), Sentence);
  }

  /** The words of a second pass double the word counts. */
  lemma SecondPassWords()
    ensures AddAll(SentenceTable[Sentence := 1], LongerThan(SentenceWords, 0)) == DoubledTable[Sentence := 1]
  {
    var t1 := SentenceTable[Sentence := 1];
    var r := AddAll(t1, LongerThan(SentenceWords, 0));
    var expected := DoubledTable[Sentence := 1];
    AddAllEffect(t1, LongerThan(SentenceWords, 0));
    SentenceWordCounts();
    assert r.Keys == expected.Keys;
    forall k | k in r ensures Count(r, k) == Count(expected, k) {
      SecondPassCount(k);
    }
    TablesEqual(r, expected);
  }

  lemma SecondPassCount(k: string)
    ensures Count(SentenceTable[Sentence := 1], k) + Count(SentenceTable, k) == Count(DoubledTable[Sentence := 1], k)
  {
    SentenceIsNoWord();
  }

  /** Both passes over the line. */
  lemma SecondPass()
    ensures AddAll(SentenceTable[Sentence := 1], LineKeys(Sentence, true, false, [], 0)) == DoubledTable
  {
    SentenceLine();
    SecondPassWords();
    AddAllSnoc(SentenceTable[Sentence := 1], LongerThan(SentenceWords, 0), Sentence);
  }

  /** The sentence given twice, split into n-grams with no dictionary:
      "the" four times, the other words and the whole line twice each. */
  lemma FrequenciesOfDoubledSentence()
    ensures Frequencies(map[], [Sentence, Sentence], true, false, [], 0, false) == DoubledTable
  {
    var line := LineKeys(Sentence, true, false, [], 0);
    assert [Sentence, Sentence][..1] == [Sentence];
    assert ScanKeys([Sentence], true, false, [], 0) == [] + line;
    assert ScanKeys([Sentence, Sentence], true, false, [], 0) == line + line;
    AddAllAppend(map[], line, line);
    FirstPass();
    SecondPass();
  }

  lemma HeadIsLargest(s: seq<string>, key: string -> int, x: string)
    requires SortedBy(s, key) && x in s
    ensures key(s[0]) >= key(x)
  {
    var i :| 0 <= i < |s| && s[i] == x;
    if i > 0 {
      assert key(s[0]) >= key(s[i]);
    }
  }

  lemma SortedTail(s: seq<string>, key: string -> int)
    requires SortedBy(s, key) && s != []
    ensures SortedBy(s[1..], key)
  {
    forall i, j | 0 <= i < j < |s| - 1 ensures key(s[1..][i]) >= key(s[1..][j]) {
      assert key(s[i + 1]) >= key(s[j + 1]);
    }
  }

  lemma SameTails(s1: seq<string>, s2: seq<string>)
    requires s1 != [] && s2 != [] && s1[0] == s2[0]
    requires multiset(s1) == multiset(s2)
    ensures multiset(s1[1..]) == multiset(s2[1..])
  {
    assert s1 == [s1[0]] + s1[1..] && s2 == [s2[0]] + s2[1..];
    forall x ensures multiset(s1[1..])[x] == multiset(s2[1..])[x] {
      assert multiset(s1)[x] == multiset{s1[0]}[x] + multiset(s1[1..])[x];
      assert multiset(s2)[x] == multiset{s2[0]}[x] + multiset(s2[1..])[x];
    }
  }

  /** Orderings by `key` of the same strings start with the same string
      when no two of them share a key. */
  lemma SameHeads(s1: seq<string>, s2: seq<string>, key: string -> int)
    requires s1 != [] && multiset(s1) == multiset(s2)
    requires SortedBy(s1, key) && SortedBy(s2, key)
    requires forall a, b | a in s1 && b in s1 && a != b :: key(a) != key(b)
    ensures s2 != [] && s1[0] == s2[0]
  {
    assert s1[0] in multiset(s2);
    assert s2[0] in multiset(s1);
    HeadIsLargest(s2, key, s1[0]);
    HeadIsLargest(s1, key, s2[0]);
  }

  /** Two orderings by `key` of the same strings, no two of which have the
      same key, are equal: ties are the only freedom `sort.Slice` has. */
  lemma {:induction false} RankingUnique(s1: seq<string>, s2: seq<string>, key: string -> int)
    requires multiset(s1) == multiset(s2)
    requires SortedBy(s1, key) && SortedBy(s2, key)
    requires forall a, b | a in s1 && b in s1 && a != b :: key(a) != key(b)
    ensures s1 == s2
    decreases |s1|
  {
    if s1 == [] {
      assert |multiset(s2)| == 0;
    } else {
      SameHeads(s1, s2, key);
      SameTails(s1, s2);
      forall a, b | a in s1[1..] && b in s1[1..] && a != b ensures key(a) != key(b) {
        assert a in s1 && b in s1;
      }
      SortedTail(s1, key);
      SortedTail(s2, key);
      RankingUnique(s1[1..], s2[1..], key);
      assert s1 == [s1[0]] + s1[1..] && s2 == [s2[0]] + s2[1..];
    }
  }

  const Ranked: Table := map["the" := 9, "quick" := 10, "brown" := 7, "fox" := 6,
                             "jumps" := 5, "over" := 4, "lazy" := 3, "dog" := 2, Sentence := 1]

  /** The order the test expects: the counts strictly decrease along it. */
  const RankedOrder: seq<string> := ["quick", "the", "brown", "fox", "jumps", "over", "lazy", "dog", Sentence]

  lemma RankedOrderCounts()
    ensures forall i, j | 0 <= i < j < |RankedOrder| :: Count(Ranked, RankedOrder[i]) > Count(Ranked, RankedOrder[j])
  {
    SentenceIsNoWord();
    var c := [10, 9, 7, 6, 5, 4, 3, 2, 1];
    assert forall i | 0 <= i < |RankedOrder| :: Count(Ranked, RankedOrder[i]) == c[i];
  }

  /** Distinct keys of the test table have distinct counts. */
  lemma RankedCountsDistinct(a: string, b: string)
    requires a in Ranked && b in Ranked && a != b
    ensures Count(Ranked, a) != Count(Ranked, b)
  {
    RankedOrderCounts();
    assert Ranked.Keys == set w | w in RankedOrder;
    var i :| 0 <= i < |RankedOrder| && RankedOrder[i] == a;
    var j :| 0 <= j < |RankedOrder| && RankedOrder[j] == b;
    assert i != j;
  }

  /** A sequence without repeats holds each of its elements once. */
  lemma {:induction false} MultisetOfDistinct(s: seq<string>)
    requires forall i, j | 0 <= i < j < |s| :: s[i] != s[j]
    ensures multiset(s) == multiset(set w | w in s)
  {
    if s != [] {
      var tail := s[1..];
      assert s == [s[0]] + tail;
      MultisetOfDistinct(tail);
      assert s[0] !in tail by {
        forall k | 0 <= k < |tail| ensures tail[k] != s[0] {
          assert tail[k] == s[k + 1];
        }
      }
      assert (set w | w in s) == {s[0]} + (set w | w in tail);
    }
  }

  /** Any result `SortItems` may return for the test table is the
      expected order. */
  lemma SortItemsOfRanked(items: seq<string>)
    requires multiset(items) == multiset(Ranked.Keys)
    requires forall i, j | 0 <= i < j < |items| :: Count(Ranked, items[i]) >= Count(Ranked, items[j])
    ensures items == RankedOrder
  {
    var key := k => Count(Ranked, k);
    RankedOrderCounts();
    assert Ranked.Keys == set w | w in RankedOrder;
    MultisetOfDistinct(RankedOrder);
    assert SortedBy(RankedOrder, key);
    assert SortedBy(items, key);
    forall a, b | a in items && b in items && a != b ensures key(a) != key(b) {
      assert a in multiset(items) && b in multiset(items);
      RankedCountsDistinct(a, b);
    }
    RankingUnique(items, RankedOrder, key);
  }

  const Fruit: seq<string> := ["apple", "banana", "cherry"]

  /** "banana" is one of the three fruits and "grape" is not. */
  lemma FruitMembers()
    ensures "banana" in Fruit && "grape" !in Fruit
  {
    assert Fruit[1] == "banana";
    forall k | 0 <= k < |Fruit| ensures Fruit[k] != "grape" {
      assert Fruit[k][0] != 'g';
    }
  }

  /** `contains` finds "banana" among three fruits, and not "grape". */
  method ContainsCases() returns (banana: bool, grape: bool)
    ensures banana && !grape
  {
    banana := Contains(Fruit, "banana");
    grape := Contains(Fruit, "grape");
    FruitMembers();
  }

  /** `AddNgramCount` on the sentence, from an empty table, with
      `exclude` 0. */
  method NgramCountCase() returns (counts: Table)
    ensures counts == SentenceTable
  {
    var t := new FrequencyTable();
    t.AddNgramCount(Sentence, 0);
    NgramCountOfSentence();
    counts := t.counts;
  }

  /** `SegmentWords` on the unspaced sentence. */
  method SegmentWordsCase() returns (segments: seq<string>)
    ensures segments == ["quick"]
  {
    segments := SegmentWords(Unspaced, SmallDict);
    SegmentOfUnspaced();
  }

  /** `AddSegmentCount` on the unspaced sentence, from an empty table. */
  method SegmentCountCase() returns (counts: Table)
    ensures counts == map["quick" := 1]
  {
    var t := new FrequencyTable();
    t.AddSegmentCount(Unspaced, SmallDict);
    SegmentCountOfUnspaced();
    counts := t.counts;
  }

  /** `CountFrequencies` on two copies of the sentence, splitting, with no
      dictionary file, from an empty table. */
  method CountFrequenciesCase() returns (counts: Table)
    ensures counts == DoubledTable
  {
    var t := new FrequencyTable();
    var dict := t.CountFrequencies([Sentence, Sentence], true, "", [], 0, false);
    FrequenciesOfDoubledSentence();
    counts := t.counts;
  }

  /** `SortItems` on the test table. */
  method SortItemsCase() returns (items: seq<string>)
    ensures items == RankedOrder
  {
    items := SortItems(Ranked);
    SortItemsOfRanked(items);
  }
}
