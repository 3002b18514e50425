/** The result table after the run: the optional per-seed de-duplication
    (sort by seed, suggestion and position with missing values last, then keep
    the first row of each `(seed, suggestion)`) and the summary of distinct
    suggestions per seed, largest count first. */
module Aggregate {
  import opened Wrappers
  import opened OrderedSet
  import opened Batch

  type Key = (string, Option<string>)

  /** The de-duplication key. Rows without a suggestion all share the key
      `(seed, None)`, as missing values compare equal in `drop_duplicates`. */
  function KeyOf(row: Row): Key {
    (row.seed, row.suggestion)
  }

  /** Position order with the missing position last (`na_position="last"`). */
  predicate PosLe(a: Option<nat>, b: Option<nat>) {
    b.None? || (a.Some? && a.value <= b.value)
  }

  predicate HasKey(rows: seq<Row>, k: Key) {
    exists j :: 0 <= j < |rows| && KeyOf(rows[j]) == k
  }

  /** The row kept for key `k`: one with the smallest position among the rows
      with that key. */
  function Best(rows: seq<Row>, k: Key): (r: Row)
    requires HasKey(rows, k)
    ensures r in rows && KeyOf(r) == k
    ensures forall j :: 0 <= j < |rows| && KeyOf(rows[j]) == k ==> PosLe(r.position, rows[j].position)
  {
    var rest := rows[1..];
    assert forall j :: 0 <= j < |rest| ==> rest[j] == rows[j + 1];
    if KeyOf(rows[0]) == k && (!HasKey(rest, k) || PosLe(rows[0].position, Best(rest, k).position)) then
      rows[0]
    else
      assert HasKey(rest, k) by {
        var j :| 0 <= j < |rows| && KeyOf(rows[j]) == k;
        if j == 0 {
          assert HasKey(rest, k);
        } else {
          assert KeyOf(rest[j - 1]) == k;
        }
      }
      Best(rest, k)
  }

  function Keys(rows: seq<Row>): seq<Key> {
    seq(|rows|, i requires 0 <= i < |rows| => KeyOf(rows[i]))
  }

  /** No two rows share a key. */
  predicate DistinctKeys(rows: seq<Row>) {
    forall i, j :: 0 <= i < j < |rows| ==> KeyOf(rows[i]) != KeyOf(rows[j])
  }

  /** `df.sort_values(["seed", "suggestion", "position"], na_position="last")
      .drop_duplicates(subset=["seed", "suggestion"], keep="first")`: one row
      per key, the one with the smallest position. */
  function DedupeRows(rows: seq<Row>): (r: seq<Row>) {
    var keys := Dedupe(Keys(rows));
    seq(|keys|, i requires 0 <= i < |keys| =>
      assert keys[i] in Keys(rows);
      var j :| 0 <= j < |rows| && Keys(rows)[j] == keys[i];
      assert HasKey(rows, keys[i]);
      Best(rows, keys[i]))
  }

  /** After de-duplication no two rows share `(seed, suggestion)`; every row
      is a row of the table; every key of the table is kept; and the kept row
      has the smallest position of its key, a missing position counting as
      the largest. */
  lemma DedupeRowsCharacterised(rows: seq<Row>)
    ensures DistinctKeys(DedupeRows(rows))
    ensures forall i :: 0 <= i < |DedupeRows(rows)| ==> DedupeRows(rows)[i] in rows
    ensures forall j :: 0 <= j < |rows| ==> HasKey(DedupeRows(rows), KeyOf(rows[j]))
    ensures forall i, j :: (0 <= i < |DedupeRows(rows)| && 0 <= j < |rows| &&
      KeyOf(rows[j]) == KeyOf(DedupeRows(rows)[i])) ==> PosLe(DedupeRows(rows)[i].position, rows[j].position)
  {
    var keys := Dedupe(Keys(rows));
    var r := DedupeRows(rows);
    assert |r| == |keys|;
    forall i | 0 <= i < |r|
      ensures KeyOf(r[i]) == keys[i]
    {
    }
    forall j | 0 <= j < |rows|
      ensures HasKey(r, KeyOf(rows[j]))
    {
      assert Keys(rows)[j] == KeyOf(rows[j]);
      var i :| 0 <= i < |keys| && keys[i] == KeyOf(rows[j]);
      assert KeyOf(r[i]) == KeyOf(rows[j]);
    }
  }

  /** `if unique_only and not df.empty`. */
  function MaybeDedupe(rows: seq<Row>, uniqueOnly: bool): seq<Row> {
    if uniqueOnly && rows != [] then DedupeRows(rows) else rows
  }

  /** The distinct non-missing suggestions of a seed (`nunique` of its group). */
  function Suggested(rows: seq<Row>, seed: string): set<string> {
    set i | 0 <= i < |rows| && rows[i].seed == seed && rows[i].suggestion.Some? :: rows[i].suggestion.value
  }

  lemma DedupeSuggestedSubset(rows: seq<Row>, seed: string)
    ensures Suggested(DedupeRows(rows), seed) <= Suggested(rows, seed)
  {
    var r := DedupeRows(rows);
    DedupeRowsCharacterised(rows);
    forall v | v in Suggested(r, seed)
      ensures v in Suggested(rows, seed)
    {
      var i :| 0 <= i < |r| && r[i].seed == seed && r[i].suggestion == Some(v);
      var j :| 0 <= j < |rows| && rows[j] == r[i];
    }
  }

  lemma DedupeSuggestedSuperset(rows: seq<Row>, seed: string)
    ensures Suggested(rows, seed) <= Suggested(DedupeRows(rows), seed)
  {
    var r := DedupeRows(rows);
    DedupeRowsCharacterised(rows);
    forall v | v in Suggested(rows, seed)
      ensures v in Suggested(r, seed)
    {
      var j :| 0 <= j < |rows| && rows[j].seed == seed && rows[j].suggestion == Some(v);
      assert HasKey(r, KeyOf(rows[j]));
      var i :| 0 <= i < |r| && KeyOf(r[i]) == KeyOf(rows[j]);
      assert r[i].seed == seed && r[i].suggestion == Some(v);
    }
  }

  /** De-duplication changes no seed's set of suggestions, so the summary is
      the same with or without it. */
  lemma DedupeKeepsSuggested(rows: seq<Row>, uniqueOnly: bool, seed: string)
    ensures Suggested(MaybeDedupe(rows, uniqueOnly), seed) == Suggested(rows, seed)
  {
    if uniqueOnly && rows != [] {
      DedupeSuggestedSubset(rows, seed);
      DedupeSuggestedSuperset(rows, seed);
    }
  }

  /** The seeds of the rows that carry a suggestion, in row order. */
  function SeedsWithSuggestions(rows: seq<Row>): seq<string> {
    if rows == [] then []
    else
      var prev := SeedsWithSuggestions(rows[..|rows| - 1]);
      var last := rows[|rows| - 1];
      if last.suggestion.Some? then prev + [last.seed] else prev
  }

  lemma {:induction false} SeedsWithSuggestionsMembers(rows: seq<Row>, seed: string)
    ensures seed in SeedsWithSuggestions(rows) <==> Suggested(rows, seed) != {}
  {
    if rows != [] {
      var p := rows[..|rows| - 1];
      var last := rows[|rows| - 1];
      SeedsWithSuggestionsMembers(p, seed);
      if Suggested(p, seed) != {} {
        var v :| v in Suggested(p, seed);
        var i :| 0 <= i < |p| && p[i].seed == seed && p[i].suggestion == Some(v);
        assert rows[i] == p[i];
        assert v in Suggested(rows, seed);
      }
      if last.seed == seed && last.suggestion.Some? {
        assert last.suggestion.value in Suggested(rows, seed);
      }
      if Suggested(rows, seed) != {} {
        var v :| v in Suggested(rows, seed);
        var i :| 0 <= i < |rows| && rows[i].seed == seed && rows[i].suggestion == Some(v);
        if i < |p| {
          assert p[i] == rows[i];
          assert v in Suggested(p, seed);
        }
      }
    }
  }

  /** One line of the summary: a seed and its `unique_suggestions`. */
  datatype SeedCount = SeedCount(seed: string, count: nat)

  predicate Descending(s: seq<SeedCount>) {
    forall i, j :: 0 <= i < j < |s| ==> s[i].count >= s[j].count
  }

  /** Insert into a list sorted by decreasing count. */
  function InsertByCount(x: SeedCount, s: seq<SeedCount>): (r: seq<SeedCount>)
    ensures multiset(r) == multiset(s) + multiset{x}
    ensures r[0] == x || (s != [] && r[0] == s[0])
  {
    if s == [] || s[0].count <= x.count then [x] + s
    else
      assert s == [s[0]] + s[1..];
      [s[0]] + InsertByCount(x, s[1..])
  }

  lemma {:induction false} InsertByCountSorted(x: SeedCount, s: seq<SeedCount>)
    requires Descending(s)
    ensures Descending(InsertByCount(x, s))
  {
    if s != [] && s[0].count > x.count {
      var tail := s[1..];
      InsertByCountSorted(x, tail);
      var rest := InsertByCount(x, tail);
      var r := InsertByCount(x, s);
      assert r == [s[0]] + rest;
      assert rest[0].count <= s[0].count by {
        if rest[0] != x {
          assert rest[0] == tail[0] == s[1];
        }
      }
      forall i, j | 0 <= i < j < |r|
        ensures r[i].count >= r[j].count
      {
        if i == 0 {
          assert r[j] == rest[j - 1];
          assert rest[0].count >= rest[j - 1].count;
        } else {
          assert r[i] == rest[i - 1] && r[j] == rest[j - 1];
        }
      }
    }
  }

  /** `sort_values("unique_suggestions", ascending=False)`: the same entries,
      largest count first (the order of equal counts is not modelled). */
  function SortByCount(s: seq<SeedCount>): (r: seq<SeedCount>)
    ensures Descending(r)
    ensures multiset(r) == multiset(s)
  {
    if s == [] then []
    else
      assert s == s[..|s| - 1] + [s[|s| - 1]];
      var sorted := SortByCount(s[..|s| - 1]);
      InsertByCountSorted(s[|s| - 1], sorted);
      InsertByCount(s[|s| - 1], sorted)
  }

  /** The summary before sorting: each seed with a suggestion, in order of
      first appearance, with its number of distinct suggestions. */
  function Counts(rows: seq<Row>): seq<SeedCount> {
    var seeds := Dedupe(SeedsWithSuggestions(rows));
    seq(|seeds|, i requires 0 <= i < |seeds| => SeedCount(seeds[i], |Suggested(rows, seeds[i])|))
  }

  /** `groupby("seed")["suggestion"].nunique()` sorted by decreasing count. */
  function Summary(rows: seq<Row>): seq<SeedCount> {
    SortByCount(Counts(rows))
  }

  predicate DistinctSeeds(s: seq<SeedCount>) {
    forall i, j :: 0 <= i < j < |s| ==> s[i].seed != s[j].seed
  }

  /** Each entry counts the distinct suggestions of its seed. */
  predicate CountsMatch(s: seq<SeedCount>, rows: seq<Row>) {
    forall i :: 0 <= i < |s| ==> s[i].count == |Suggested(rows, s[i].seed)| >= 1
  }

  lemma CountsCharacterised(rows: seq<Row>)
    ensures CountsMatch(Counts(rows), rows)
    ensures DistinctSeeds(Counts(rows))
    ensures forall seed :: Suggested(rows, seed) != {} ==>
      exists i :: 0 <= i < |Counts(rows)| && Counts(rows)[i].seed == seed
  {
    var seeds := Dedupe(SeedsWithSuggestions(rows));
    var counts := Counts(rows);
    forall i | 0 <= i < |counts|
      ensures counts[i].count == |Suggested(rows, counts[i].seed)| >= 1
    {
      SeedsWithSuggestionsMembers(rows, seeds[i]);
    }
    forall seed | Suggested(rows, seed) != {}
      ensures exists i :: 0 <= i < |counts| && counts[i].seed == seed
    {
      SeedsWithSuggestionsMembers(rows, seed);
      var k :| 0 <= k < |SeedsWithSuggestions(rows)| && SeedsWithSuggestions(rows)[k] == seed;
      var l :| 0 <= l < |seeds| && seeds[l] == seed;
      assert counts[l].seed == seed;
    }
  }

  lemma PermutationKeepsDistinctSeeds(a: seq<SeedCount>, b: seq<SeedCount>)
    requires multiset(a) == multiset(b)
    requires DistinctSeeds(a)
    ensures DistinctSeeds(b)
  {
    forall i, j | 0 <= i < j < |b|
      ensures b[i].seed != b[j].seed
    {
      if b[i].seed == b[j].seed {
        assert b[i] in multiset(a) && b[j] in multiset(a);
        var k :| 0 <= k < |a| && a[k] == b[i];
        var l :| 0 <= l < |a| && a[l] == b[j];
        assert k == l;
        MultisetCountsTwo(b, i, j);
        MultisetCountsOne(a, k);
      }
    }
  }

  /** A value at two places of a sequence occurs at least twice in its multiset. */
  lemma {:induction false} MultisetCountsTwo<T>(s: seq<T>, i: nat, j: nat)
    requires i < j < |s| && s[i] == s[j]
    ensures multiset(s)[s[i]] >= 2
  {
    var x := s[i];
    assert s == s[..j] + [s[j]] + s[j + 1..];
    assert s[..j][i] == x;
    assert multiset(s[..j])[x] >= 1;
  }

  /** In a sequence without repeated seeds, each entry occurs once. */
  lemma MultisetCountsOne(s: seq<SeedCount>, k: nat)
    requires k < |s|
    requires DistinctSeeds(s)
    ensures multiset(s)[s[k]] == 1
  {
    var x := s[k];
    var before, after := s[..k], s[k + 1..];
    assert s == before + [x] + after;
    assert x !in before by {
      forall i | 0 <= i < |before| ensures before[i] != x { assert before[i].seed == s[i].seed != x.seed; }
    }
    assert x !in after by {
      forall i | 0 <= i < |after| ensures after[i] != x { assert after[i].seed == s[k + 1 + i].seed != x.seed; }
    }
  }

  /** The summary has one entry for each seed with at least one suggestion
      and no other; its count is the number of distinct suggestions of that
      seed, so at least 1; no seed appears twice; counts never increase down
      the list. */
  lemma SummaryCharacterised(rows: seq<Row>)
    ensures Descending(Summary(rows))
    ensures forall i :: 0 <= i < |Summary(rows)| ==>
      Summary(rows)[i].count == |Suggested(rows, Summary(rows)[i].seed)| >= 1
    ensures DistinctSeeds(Summary(rows))
    ensures forall seed :: Suggested(rows, seed) != {} ==>
      exists i :: 0 <= i < |Summary(rows)| && Summary(rows)[i].seed == seed
  {
    var counts := Counts(rows);
    var r := Summary(rows);
    CountsCharacterised(rows);
    forall i | 0 <= i < |r|
      ensures r[i].count == |Suggested(rows, r[i].seed)| >= 1
    {
      assert r[i] in multiset(counts);
    }
    PermutationKeepsDistinctSeeds(counts, r);
    forall seed | Suggested(rows, seed) != {}
      ensures exists i :: 0 <= i < |r| && r[i].seed == seed
    {
      var l :| 0 <= l < |counts| && counts[l].seed == seed;
      assert counts[l] in multiset(r);
    }
  }
}
