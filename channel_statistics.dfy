/** The integer part of the statistics printed after a run: the channels
    ranked by their number of statements, the channels left with none, and
    the top-ranked channel. */
module ChannelStatistics {
  import opened Wrappers
  import opened Statements
  import opened OrderedMaps
  import opened ChannelStatements

  /** A channel and the number of statements kept for it. */
  type CountRow = (Channel, nat)

  /** The (channel, number of statements) pairs, in the mapping's order. */
  function StatementCounts(statements: OrderedMap<Channel, seq<Statement>>): seq<CountRow>
    requires Valid(statements)
  {
    seq(|statements.keys|, i requires 0 <= i < |statements.keys| =>
      (statements.keys[i], |statements.entries[statements.keys[i]]|))
  }

  /** Each row counts at least as many statements as the next one. */
  ghost predicate NonIncreasing(rows: seq<CountRow>) {
    forall i :: 0 < i < |rows| ==> rows[i - 1].1 >= rows[i].1
  }

  /** In a non-increasing list, no row counts more than the first. */
  lemma {:induction false} NonIncreasingHeadIsMaximum(rows: seq<CountRow>)
    requires NonIncreasing(rows)
    ensures forall j :: 0 <= j < |rows| ==> rows[j].1 <= rows[0].1
    decreases |rows|
  {
    if |rows| > 1 {
      NonIncreasingHeadIsMaximum(rows[1..]);
      assert forall j :: 1 <= j < |rows| ==> rows[j] == rows[1..][j - 1];
    }
  }

  /** Places a row into a ranking: after every row with a larger count, and
      before the rows whose count is not larger. */
  function InsertByCount(row: CountRow, sorted: seq<CountRow>): seq<CountRow>
    decreases |sorted|
  {
    if sorted == [] || sorted[0].1 <= row.1 then [row] + sorted
    else [sorted[0]] + InsertByCount(row, sorted[1..])
  }

  /** Every row counts at most `bound`. */
  ghost predicate AtMost(rows: seq<CountRow>, bound: nat) {
    forall i :: 0 <= i < |rows| ==> rows[i].1 <= bound
  }

  lemma {:induction false} InsertByCountAtMost(row: CountRow, sorted: seq<CountRow>, bound: nat)
    requires AtMost(sorted, bound) && row.1 <= bound
    ensures AtMost(InsertByCount(row, sorted), bound)
    decreases |sorted|
  {
    if sorted != [] && sorted[0].1 > row.1 {
      InsertByCountAtMost(row, sorted[1..], bound);
    }
  }

  /** Inserting adds exactly the one row. */
  lemma {:induction false} InsertByCountPermutes(row: CountRow, sorted: seq<CountRow>)
    ensures multiset(InsertByCount(row, sorted)) == multiset(sorted) + multiset{row}
    decreases |sorted|
  {
    if sorted != [] && sorted[0].1 > row.1 {
      InsertByCountPermutes(row, sorted[1..]);
      assert sorted == [sorted[0]] + sorted[1..];
    }
  }

  /** Inserting into a ranking gives a ranking. */
  lemma {:induction false} InsertByCountSorted(row: CountRow, sorted: seq<CountRow>)
    requires NonIncreasing(sorted)
    ensures NonIncreasing(InsertByCount(row, sorted))
    decreases |sorted|
  {
    if sorted != [] && sorted[0].1 > row.1 {
      var head, tail := sorted[0], sorted[1..];
      assert forall i :: 0 <= i < |tail| ==> tail[i] == sorted[i + 1];
      NonIncreasingHeadIsMaximum(sorted);
      InsertByCountSorted(row, tail);
      InsertByCountAtMost(row, tail, head.1);
      var rest := InsertByCount(row, tail);
      var r := [head] + rest;
      forall i | 0 < i < |r| ensures r[i - 1].1 >= r[i].1 {
        assert r[i] == rest[i - 1];
        if i > 1 {
          assert r[i - 1] == rest[i - 2];
        }
      }
    }
  }

  /** Sorting by count, largest first, keeping rows of equal count in their
      original order (a stable sort run in reverse). */
  function SortByCountDescending(rows: seq<CountRow>): seq<CountRow>
    decreases |rows|
  {
    if rows == [] then []
    else InsertByCount(rows[0], SortByCountDescending(rows[1..]))
  }

  /** The sort yields a ranking that is a permutation of its input. */
  lemma {:induction false} SortByCountSorted(rows: seq<CountRow>)
    ensures NonIncreasing(SortByCountDescending(rows))
    ensures multiset(SortByCountDescending(rows)) == multiset(rows)
    decreases |rows|
  {
    if rows != [] {
      var rest := SortByCountDescending(rows[1..]);
      SortByCountSorted(rows[1..]);
      InsertByCountSorted(rows[0], rest);
      InsertByCountPermutes(rows[0], rest);
      assert rows == [rows[0]] + rows[1..];
    }
  }

  /** The rows whose count is `n`, in their order. */
  function WithCount(rows: seq<CountRow>, n: nat): seq<CountRow>
    decreases |rows|
  {
    if rows == [] then []
    else (if rows[0].1 == n then [rows[0]] else []) + WithCount(rows[1..], n)
  }

  lemma {:induction false} WithCountMembership(rows: seq<CountRow>, n: nat)
    ensures forall row :: row in WithCount(rows, n) <==> row in rows && row.1 == n
    decreases |rows|
  {
    if rows != [] {
      WithCountMembership(rows[1..], n);
      assert rows == [rows[0]] + rows[1..];
    }
  }

  lemma {:induction false} InsertByCountStable(row: CountRow, sorted: seq<CountRow>, n: nat)
    ensures WithCount(InsertByCount(row, sorted), n) == (if row.1 == n then [row] else []) + WithCount(sorted, n)
    decreases |sorted|
  {
    var mine: seq<CountRow> := if row.1 == n then [row] else [];
    if sorted == [] || sorted[0].1 <= row.1 {
      assert ([row] + sorted)[1..] == sorted;
    } else {
      var head, tail := sorted[0], sorted[1..];
      var rest := InsertByCount(row, tail);
      var heads: seq<CountRow> := if head.1 == n then [head] else [];
      InsertByCountStable(row, tail, n);
      assert ([head] + rest)[1..] == rest;
      assert WithCount([head] + rest, n) == heads + (mine + WithCount(tail, n));
      assert WithCount(sorted, n) == heads + WithCount(tail, n);
      assert heads == [] || mine == [];
    }
  }

  /** The sort is stable: for every count, the rows with that count appear
      in the ranking in the same order as in the input. */
  lemma {:induction false} SortByCountStable(rows: seq<CountRow>, n: nat)
    ensures WithCount(SortByCountDescending(rows), n) == WithCount(rows, n)
    decreases |rows|
  {
    if rows != [] {
      SortByCountStable(rows[1..], n);
      InsertByCountStable(rows[0], SortByCountDescending(rows[1..]), n);
    }
  }

  /** The first row with count `n` sits at a position before which no row
      has count `n`. */
  lemma {:induction false} WithCountHead(rows: seq<CountRow>, n: nat)
    requires WithCount(rows, n) != []
    ensures exists i :: 0 <= i < |rows| && rows[i] == WithCount(rows, n)[0]
                        && forall j :: 0 <= j < i ==> rows[j].1 != n
    decreases |rows|
  {
    if rows[0].1 != n {
      WithCountHead(rows[1..], n);
      var i :| 0 <= i < |rows[1..]| && rows[1..][i] == WithCount(rows[1..], n)[0]
               && forall j :: 0 <= j < i ==> rows[1..][j].1 != n;
      assert rows[i + 1] == WithCount(rows, n)[0];
      forall j | 0 <= j < i + 1 ensures rows[j].1 != n {
        if j > 0 {
          assert rows[j] == rows[1..][j - 1];
        }
      }
    } else {
      assert rows[0] == WithCount(rows, n)[0];
    }
  }

  /** The channels of a list of rows, in order. */
  function Names(rows: seq<CountRow>): seq<Channel> {
    seq(|rows|, i requires 0 <= i < |rows| => rows[i].0)
  }

  /** The channels whose count is zero, in ranking order. */
  function Missing(counts: seq<CountRow>): seq<Channel> {
    Names(WithCount(counts, 0))
  }

  /** The first row of the ranking; there is none when the mapping is empty,
      where indexing the ranking fails. */
  function Top(counts: seq<CountRow>): Option<CountRow> {
    if counts == [] then None else Some(counts[0])
  }

  /** The missing channels are exactly those with no statements, listed in
      the mapping's own order (the sort keeps the zero-count rows in place
      relative to each other). */
  lemma MissingAreTheEmptyChannels(statements: OrderedMap<Channel, seq<Statement>>)
    requires Valid(statements)
    ensures Missing(SortByCountDescending(StatementCounts(statements))) == Missing(StatementCounts(statements))
    ensures forall c :: c in Missing(StatementCounts(statements)) <==>
              c in statements.entries && |statements.entries[c]| == 0
  {
    var rows := StatementCounts(statements);
    SortByCountStable(rows, 0);
    var zero := WithCount(rows, 0);
    WithCountMembership(rows, 0);
    forall c
      ensures c in Missing(rows) <==> c in statements.entries && |statements.entries[c]| == 0
    {
      if c in Missing(rows) {
        var k :| 0 <= k < |zero| && zero[k].0 == c;
        assert zero[k] in rows;
      }
      if c in statements.entries && |statements.entries[c]| == 0 {
        var i :| 0 <= i < |statements.keys| && statements.keys[i] == c;
        assert rows[i] in zero;
        var k :| 0 <= k < |zero| && zero[k] == rows[i];
        assert Missing(rows)[k] == c;
      }
    }
  }

  /** The top row exists exactly when the mapping is nonempty, and then it
      names a channel of the mapping with the largest number of statements.
      Among channels tied at that count it is the one stored first: the
      first row of that count in the mapping's order. */
  lemma TopIsMaximum(statements: OrderedMap<Channel, seq<Statement>>)
    requires Valid(statements)
    ensures Top(SortByCountDescending(StatementCounts(statements))).None? <==> statements.entries == map[]
    ensures Top(SortByCountDescending(StatementCounts(statements))).Some? ==>
              var top := Top(SortByCountDescending(StatementCounts(statements))).value;
              && top.0 in statements.entries
              && top.1 == |statements.entries[top.0]|
              && (forall c :: c in statements.entries ==> |statements.entries[c]| <= top.1)
              && WithCount(StatementCounts(statements), top.1) != []
              && top == WithCount(StatementCounts(statements), top.1)[0]
    ensures Top(SortByCountDescending(StatementCounts(statements))).Some? ==>
              var top := Top(SortByCountDescending(StatementCounts(statements))).value;
              exists i :: 0 <= i < |statements.keys| && statements.keys[i] == top.0
                          && forall j :: 0 <= j < i ==> |statements.entries[statements.keys[j]]| < top.1
  {
    var rows := StatementCounts(statements);
    var sorted := SortByCountDescending(rows);
    SortByCountSorted(rows);
    assert |sorted| == |multiset(sorted)| == |multiset(rows)| == |rows|;
    if statements.entries != map[] {
      var c :| c in statements.entries;
      assert c in statements.keys;
    }
    if sorted != [] {
      var top := sorted[0];
      NonIncreasingHeadIsMaximum(sorted);
      forall c | c in statements.entries
        ensures |statements.entries[c]| <= top.1
      {
        var i :| 0 <= i < |statements.keys| && statements.keys[i] == c;
        assert rows[i] in multiset(sorted);
        var j :| 0 <= j < |sorted| && sorted[j] == rows[i];
      }
      SortByCountStable(rows, top.1);
      assert WithCount(sorted, top.1) == [top] + WithCount(sorted[1..], top.1);
      WithCountHead(rows, top.1);
      var i :| 0 <= i < |rows| && rows[i] == top && forall j :: 0 <= j < i ==> rows[j].1 != top.1;
      assert statements.keys[i] == top.0;
      forall j | 0 <= j < i
        ensures |statements.entries[statements.keys[j]]| < top.1
      {
        assert rows[j].1 != top.1;
        assert rows[j] in multiset(sorted);
        var k :| 0 <= k < |sorted| && sorted[k] == rows[j];
      }
    }
  }

  /** What the statistics report holds, apart from the average. */
  datatype Report = Report(counts: seq<CountRow>, missing: seq<Channel>, top: Option<CountRow>)

  /** The ranking, the channels with no statements and the top channel. */
  function Statistics(statements: OrderedMap<Channel, seq<Statement>>): (report: Report)
    requires Valid(statements)
    ensures NonIncreasing(report.counts)
    ensures |report.counts| == |statements.keys|
    ensures forall c :: c in report.missing <==> c in statements.entries && |statements.entries[c]| == 0
    ensures report.top.None? <==> statements.entries == map[]
    ensures multiset(report.counts) == multiset(StatementCounts(statements))
    ensures forall n :: WithCount(report.counts, n) == WithCount(StatementCounts(statements), n)
    ensures report.missing == Missing(StatementCounts(statements))
    ensures report.top.Some? ==>
              && report.top.value.0 in statements.entries
              && report.top.value.1 == |statements.entries[report.top.value.0]|
              && (forall c :: c in statements.entries ==> |statements.entries[c]| <= report.top.value.1)
              && WithCount(StatementCounts(statements), report.top.value.1) != []
              && report.top.value == WithCount(StatementCounts(statements), report.top.value.1)[0]
  {
    var rows := StatementCounts(statements);
    var counts := SortByCountDescending(rows);
    SortByCountSorted(rows);
    MissingAreTheEmptyChannels(statements);
    TopIsMaximum(statements);
    assert |counts| == |multiset(counts)|;
    assert forall n :: WithCount(counts, n) == WithCount(rows, n) by {
      forall n ensures WithCount(counts, n) == WithCount(rows, n) {
        SortByCountStable(rows, n);
      }
    }
    Report(counts, Missing(counts), Top(counts))
  }

  /** After a completed run, a channel is reported as missing exactly when it
      was queried and the filter kept none of its statements. */
  lemma MissingAfterRun(channels: seq<Channel>, fetch: (Channel, nat) -> Batch, evLimit: nat, c: Channel)
    requires Gathered(channels, fetch, evLimit).Success?
    ensures Valid(Gathered(channels, fetch, evLimit).value)
    ensures c in Statistics(Gathered(channels, fetch, evLimit).value).missing <==>
              c in channels && FilteredBatch(fetch(c, evLimit)).Success?
              && |FilteredBatch(fetch(c, evLimit)).value| == 0
  {
    var statements := Gathered(channels, fetch, evLimit).value;
    GatheredMapsEachChannel(channels, fetch, evLimit);
    var report := Statistics(statements);
    assert c in report.missing <==> c in statements.entries && |statements.entries[c]| == 0;
    if c in channels {
      var kept := FilteredBatch(fetch(c, evLimit));
      assert kept.Success? && statements.entries[c] == kept.value;
    }
  }
}
