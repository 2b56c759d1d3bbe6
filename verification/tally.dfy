/**
 A frequency table is a `map<string, int>`. Reading a key that is absent
 gives 0 and `freq[k]++` stores the old count plus one, as a Go map does.
 */
module Tally {

  type Table = map<string, int>

  /** The count of `k`, 0 when `k` is not a key. */
  function Count(m: Table, k: string): int {
    if k in m then m[k] else 0
  }

  /** `m[k]++`: `k` becomes a key and its count goes up by one. */
  function Inc(m: Table, k: string): Table {
    m[k := Count(m, k) + 1]
  }

  /** Increments the count of each element of `ws`, from first to last. */
  function AddAll(m: Table, ws: seq<string>): Table
    decreases |ws|
  {
    if ws == [] then m
    else Inc(AddAll(m, ws[..|ws| - 1]), ws[|ws| - 1])
  }

  lemma AddAllSnoc(m: Table, ws: seq<string>, w: string)
    ensures AddAll(m, ws + [w]) == Inc(AddAll(m, ws), w)
  {
    assert (ws + [w])[..|ws|] == ws;
  }

  /** Each key gains exactly as many as it occurs in `ws`. */
  lemma {:induction false} AddAllCount(m: Table, ws: seq<string>, k: string)
    ensures Count(AddAll(m, ws), k) == Count(m, k) + multiset(ws)[k]
    decreases |ws|
  {
    if ws != [] {
      var init := ws[..|ws| - 1];
      assert ws == init + [ws[|ws| - 1]];
      AddAllCount(m, init, k);
    }
  }

  /** The keys afterwards are the old keys and the elements of `ws`. */
  lemma {:induction false} AddAllKeys(m: Table, ws: seq<string>)
    ensures AddAll(m, ws).Keys == m.Keys + set w | w in ws
    decreases |ws|
  {
    if ws != [] {
      var init := ws[..|ws| - 1];
      assert ws == init + [ws[|ws| - 1]];
      AddAllKeys(m, init);
    }
  }

  /** Every count of `AddAll(m, ws)` is the old count plus the number of
      occurrences in `ws`, and its keys are the old keys and the elements
      of `ws`. */
  lemma AddAllEffect(m: Table, ws: seq<string>)
    ensures AddAll(m, ws).Keys == m.Keys + set w | w in ws
    ensures forall k :: Count(AddAll(m, ws), k) == Count(m, k) + multiset(ws)[k]
  {
    AddAllKeys(m, ws);
    forall k ensures Count(AddAll(m, ws), k) == Count(m, k) + multiset(ws)[k] {
      AddAllCount(m, ws, k);
    }
  }

  /** Incrementing for `a` then for `b` is incrementing for `a + b`. */
  lemma {:induction false} AddAllAppend(m: Table, a: seq<string>, b: seq<string>)
    ensures AddAll(m, a + b) == AddAll(AddAll(m, a), b)
    decreases |b|
  {
    if b == [] {
      assert a + b == a;
    } else {
      var ab := a + b;
      var binit := b[..|b| - 1];
      assert ab[..|ab| - 1] == a + binit;
      assert ab[|ab| - 1] == b[|b| - 1];
      AddAllAppend(m, a, binit);
    }
  }
}
