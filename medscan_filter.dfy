/** The evidence filter: a statement is kept exactly when its row of the
    source-count table gives it a nonzero count outside "medscan". The
    evidence list that drops the medscan items is built and then thrown
    away, so kept statements leave the filter exactly as they entered it. */
module MedscanFilter {
  import opened Wrappers
  import opened Statements

  // ---------------------------------------------------------------------
  // Counting non-medscan evidence (non_medscan_evidence)
  // ---------------------------------------------------------------------

  /** What one table item adds to the sum: counts under "medscan" add nothing. */
  function Contribution(counts: map<Source, int>, source: Source): int
    requires source in counts
  {
    if source == Medscan then 0 else counts[source]
  }

  /** The sum of the counts of every source other than "medscan". A map has
      no order, so the sum peels off one (arbitrary) key at a time;
      NonMedscanSumRemove shows that the key chosen does not matter. */
  ghost function NonMedscanSum(counts: map<Source, int>): int
    decreases counts.Keys
  {
    if counts == map[] then 0
    else
      var source :| source in counts;
      Contribution(counts, source) + NonMedscanSum(counts - {source})
  }

  /** Any key may be taken out first: the sum is independent of the order in
      which the table's items are visited. */
  lemma {:induction false} NonMedscanSumRemove(counts: map<Source, int>, source: Source)
    requires source in counts
    ensures NonMedscanSum(counts) == Contribution(counts, source) + NonMedscanSum(counts - {source})
    decreases counts.Keys
  {
    var picked :| picked in counts
      && NonMedscanSum(counts) == Contribution(counts, picked) + NonMedscanSum(counts - {picked});
    if picked != source {
      var both := counts - {picked} - {source};
      assert counts - {source} - {picked} == both;
      NonMedscanSumRemove(counts - {picked}, source);
      NonMedscanSumRemove(counts - {source}, picked);
      assert Contribution(counts - {picked}, source) == Contribution(counts, source);
      assert Contribution(counts - {source}, picked) == Contribution(counts, picked);
    }
  }

  /** The "medscan" count never matters: overwriting it, adding it or
      removing it leaves the sum as it was. */
  lemma NonMedscanSumIgnoresMedscan(counts: map<Source, int>, medscanCount: int)
    ensures NonMedscanSum(counts[Medscan := medscanCount]) == NonMedscanSum(counts)
    ensures NonMedscanSum(counts - {Medscan}) == NonMedscanSum(counts)
  {
    var updated := counts[Medscan := medscanCount];
    NonMedscanSumRemove(updated, Medscan);
    if Medscan in counts {
      NonMedscanSumRemove(counts, Medscan);
      assert updated - {Medscan} == counts - {Medscan};
    } else {
      assert updated - {Medscan} == counts;
      assert counts - {Medscan} == counts;
    }
  }

  /** Counts of evidence items are never negative. */
  ghost predicate NonNegativeCounts(counts: map<Source, int>) {
    forall source :: source in counts ==> counts[source] >= 0
  }

  /** With nonnegative counts, the sum is nonzero exactly when some source
      other than "medscan" reports at least one evidence item. */
  lemma {:induction false} NonMedscanSumNonzero(counts: map<Source, int>)
    requires NonNegativeCounts(counts)
    ensures NonMedscanSum(counts) >= 0
    ensures NonMedscanSum(counts) != 0 <==>
              exists source :: source in counts && source != Medscan && counts[source] > 0
    decreases counts.Keys
  {
    if counts != map[] {
      var picked :| picked in counts;
      var rest := counts - {picked};
      NonMedscanSumRemove(counts, picked);
      NonMedscanSumNonzero(rest);
      if NonMedscanSum(counts) != 0 {
        if Contribution(counts, picked) == 0 {
          var reported :| reported in rest && reported != Medscan && rest[reported] > 0;
          assert counts[reported] > 0;
        }
      } else {
        forall source | source in counts && source != Medscan
          ensures counts[source] <= 0
        {
          if source != picked {
            assert source in rest;
          }
        }
      }
    }
  }

  /** Runs the generator of non_medscan_evidence: looks up the statement's
      row of the table and sums its non-medscan counts item by item. A hash
      with no row makes the lookup yield nothing, on which the sum fails. */
  method NonMedscanEvidence(stmt: Statement, sourceCounts: SourceCounts) returns (r: Result<int, FilterError>)
    ensures stmt.hash in sourceCounts ==> r == Success(NonMedscanSum(sourceCounts[stmt.hash]))
    ensures stmt.hash !in sourceCounts ==> r == Failure(MissingSourceCounts(stmt.hash))
  {
    if stmt.hash !in sourceCounts {
      return Failure(MissingSourceCounts(stmt.hash));
    }
    var counts := sourceCounts[stmt.hash];
    var evCount := 0;
    var rest := counts;
    while rest != map[]
      invariant evCount + NonMedscanSum(rest) == NonMedscanSum(counts)
      decreases rest.Keys
    {
      var source :| source in rest;
      NonMedscanSumRemove(rest, source);
      if source != Medscan {
        evCount := evCount + rest[source];
      }
      rest := rest - {source};
    }
    return Success(evCount);
  }

  // ---------------------------------------------------------------------
  // Filtering a batch of statements (filter_out_medscan)
  // ---------------------------------------------------------------------

  /** The evidence items not read by medscan, in their original order: the
      list the filter builds for each statement and never uses. */
  function WithoutMedscan(evidence: seq<Evidence>): (kept: seq<Evidence>)
    ensures |kept| <= |evidence|
    ensures forall ev :: ev in kept <==> ev in evidence && ev.sourceApi != Medscan
    decreases |evidence|
  {
    if evidence == [] then []
    else
      var last := evidence[|evidence| - 1];
      WithoutMedscan(evidence[..|evidence| - 1]) + (if last.sourceApi == Medscan then [] else [last])
  }

  /** The list keeps every non-medscan item as often as the evidence holds
      it, and no medscan item. */
  lemma {:induction false} WithoutMedscanMultiplicity(evidence: seq<Evidence>)
    ensures forall ev :: multiset(WithoutMedscan(evidence))[ev]
                      == if ev.sourceApi == Medscan then 0 else multiset(evidence)[ev]
    decreases |evidence|
  {
    if evidence != [] {
      var prefix, last := evidence[..|evidence| - 1], evidence[|evidence| - 1];
      WithoutMedscanMultiplicity(prefix);
      assert evidence == prefix + [last];
    }
  }

  /** Every statement of the batch has a row in the table. */
  ghost predicate HasSourceCounts(stmts: seq<Statement>, sourceCounts: SourceCounts) {
    forall i :: 0 <= i < |stmts| ==> stmts[i].hash in sourceCounts
  }

  /** The keep rule: the statement's non-medscan count is nonzero. */
  ghost predicate Survives(stmt: Statement, sourceCounts: SourceCounts)
    requires stmt.hash in sourceCounts
  {
    NonMedscanSum(sourceCounts[stmt.hash]) != 0
  }

  /** What filter_out_medscan returns for a batch: the statements that
      survive, in order and unchanged, or the failure raised by the first
      statement that has no row in the table. */
  ghost function Filtered(stmts: seq<Statement>, sourceCounts: SourceCounts): Result<seq<Statement>, FilterError>
    decreases |stmts|
  {
    if stmts == [] then Success([])
    else
      match Filtered(stmts[..|stmts| - 1], sourceCounts)
      case Failure(e) => Failure(e)
      case Success(kept) =>
        var last := stmts[|stmts| - 1];
        if last.hash !in sourceCounts then Failure(MissingSourceCounts(last.hash))
        else if Survives(last, sourceCounts) then Success(kept + [last])
        else Success(kept)
  }

  /** The filter loop. For each statement it first collects the evidence not
      read by medscan into a fresh list, which it then drops; the keep
      decision consults the table only. */
  method FilterOutMedscan(stmts: seq<Statement>, sourceCounts: SourceCounts)
    returns (r: Result<seq<Statement>, FilterError>)
    ensures r == Filtered(stmts, sourceCounts)
  {
    var newStmts: seq<Statement> := [];
    for i := 0 to |stmts|
      invariant Filtered(stmts[..i], sourceCounts) == Success(newStmts)
    {
      var stmt := stmts[i];
      var newEvidence: seq<Evidence> := [];
      for j := 0 to |stmt.evidence|
        invariant newEvidence == WithoutMedscan(stmt.evidence[..j])
      {
        var ev := stmt.evidence[j];
        assert stmt.evidence[..j + 1][..j] == stmt.evidence[..j];
        if ev.sourceApi == Medscan {
          continue;
        }
        newEvidence := newEvidence + [ev];
      }
      assert stmt.evidence[..|stmt.evidence|] == stmt.evidence;
      // newEvidence now holds exactly the non-medscan items, and is dropped.
      assert newEvidence == WithoutMedscan(stmt.evidence);
      var evCount := NonMedscanEvidence(stmt, sourceCounts);
      assert stmts[..i + 1][..i] == stmts[..i];
      if evCount.Failure? {
        FilteredSucceedsIffCounted(stmts[..i], sourceCounts);
        FilteredFailsAtFirstUncounted(stmts, sourceCounts, i);
        return Failure(evCount.error);
      }
      if evCount.value == 0 {
        continue;
      }
      newStmts := newStmts + [stmt];
    }
    assert stmts[..|stmts|] == stmts;
    return Success(newStmts);
  }

  // ---------------------------------------------------------------------
  // Properties of the filter
  // ---------------------------------------------------------------------

  /** The positions of the statements that survive, in increasing order. */
  ghost function SurvivingIndices(stmts: seq<Statement>, sourceCounts: SourceCounts): (indices: seq<nat>)
    requires HasSourceCounts(stmts, sourceCounts)
    ensures forall k :: 0 <= k < |indices| ==> indices[k] < |stmts|
    ensures forall k, l :: 0 <= k < l < |indices| ==> indices[k] < indices[l]
    ensures forall i :: 0 <= i < |stmts| ==> (i in indices <==> Survives(stmts[i], sourceCounts))
    decreases |stmts|
  {
    if stmts == [] then []
    else
      var n := |stmts| - 1;
      assert forall i :: 0 <= i < n ==> stmts[..n][i] == stmts[i];
      SurvivingIndices(stmts[..n], sourceCounts) + (if Survives(stmts[n], sourceCounts) then [n] else [])
  }

  /** The filter fails exactly when some statement has no row in the table. */
  lemma {:induction false} FilteredSucceedsIffCounted(stmts: seq<Statement>, sourceCounts: SourceCounts)
    ensures Filtered(stmts, sourceCounts).Success? <==> HasSourceCounts(stmts, sourceCounts)
    decreases |stmts|
  {
    if stmts != [] {
      var n := |stmts| - 1;
      FilteredSucceedsIffCounted(stmts[..n], sourceCounts);
      assert forall i :: 0 <= i < n ==> stmts[..n][i] == stmts[i];
    }
  }

  /** The failure names the hash of the first statement without a row. */
  lemma {:induction false} FilteredFailsAtFirstUncounted(stmts: seq<Statement>, sourceCounts: SourceCounts, i: nat)
    requires i < |stmts| && stmts[i].hash !in sourceCounts
    requires HasSourceCounts(stmts[..i], sourceCounts)
    ensures Filtered(stmts, sourceCounts) == Failure(MissingSourceCounts(stmts[i].hash))
    decreases |stmts|
  {
    var n := |stmts| - 1;
    if i == n {
      FilteredSucceedsIffCounted(stmts[..n], sourceCounts);
    } else {
      assert stmts[..n][..i] == stmts[..i];
      FilteredFailsAtFirstUncounted(stmts[..n], sourceCounts, i);
    }
  }

  /** The output is the input restricted to the surviving positions: a
      subsequence in the input's order, each statement unchanged (evidence
      list included), present exactly when its non-medscan count is nonzero. */
  lemma {:induction false} FilteredKeepsSurvivors(stmts: seq<Statement>, sourceCounts: SourceCounts)
    requires HasSourceCounts(stmts, sourceCounts)
    ensures Filtered(stmts, sourceCounts).Success?
    ensures |Filtered(stmts, sourceCounts).value| == |SurvivingIndices(stmts, sourceCounts)|
    ensures forall k :: 0 <= k < |SurvivingIndices(stmts, sourceCounts)| ==>
              Filtered(stmts, sourceCounts).value[k] == stmts[SurvivingIndices(stmts, sourceCounts)[k]]
    decreases |stmts|
  {
    if stmts != [] {
      var n := |stmts| - 1;
      assert forall i :: 0 <= i < n ==> stmts[..n][i] == stmts[i];
      FilteredKeepsSurvivors(stmts[..n], sourceCounts);
    }
  }

  /** Membership form of the keep rule, in both directions. */
  lemma FilteredMembership(stmts: seq<Statement>, sourceCounts: SourceCounts, stmt: Statement)
    requires HasSourceCounts(stmts, sourceCounts)
    ensures Filtered(stmts, sourceCounts).Success?
    ensures stmt in Filtered(stmts, sourceCounts).value <==>
              stmt in stmts && Survives(stmt, sourceCounts)
  {
    FilteredKeepsSurvivors(stmts, sourceCounts);
    var kept, indices := Filtered(stmts, sourceCounts).value, SurvivingIndices(stmts, sourceCounts);
    if stmt in kept {
      var k :| 0 <= k < |kept| && kept[k] == stmt;
      assert stmts[indices[k]] == stmt;
    }
    if stmt in stmts && Survives(stmt, sourceCounts) {
      var i :| 0 <= i < |stmts| && stmts[i] == stmt;
      var k :| 0 <= k < |indices| && indices[k] == i;
      assert kept[k] == stmt;
    }
  }

  /** With nonnegative counts, a statement of the batch is kept exactly when
      some source other than "medscan" reports evidence for it. */
  lemma KeptIffOtherSourceReports(stmts: seq<Statement>, sourceCounts: SourceCounts, stmt: Statement)
    requires HasSourceCounts(stmts, sourceCounts)
    requires stmt in stmts && NonNegativeCounts(sourceCounts[stmt.hash])
    ensures Filtered(stmts, sourceCounts).Success?
    ensures stmt in Filtered(stmts, sourceCounts).value <==>
              exists source :: source in sourceCounts[stmt.hash] && source != Medscan && sourceCounts[stmt.hash][source] > 0
  {
    FilteredMembership(stmts, sourceCounts, stmt);
    NonMedscanSumNonzero(sourceCounts[stmt.hash]);
  }

  /** Filtering an empty batch yields an empty batch, and filtering a
      filtered batch again with the same table changes nothing. */
  lemma {:induction false} FilteredIdempotent(stmts: seq<Statement>, sourceCounts: SourceCounts)
    requires Filtered(stmts, sourceCounts).Success?
    ensures Filtered([], sourceCounts) == Success([])
    ensures Filtered(Filtered(stmts, sourceCounts).value, sourceCounts) == Filtered(stmts, sourceCounts)
    decreases |stmts|
  {
    if stmts != [] {
      var n := |stmts| - 1;
      var kept := Filtered(stmts[..n], sourceCounts).value;
      FilteredIdempotent(stmts[..n], sourceCounts);
      var last := stmts[n];
      if Survives(last, sourceCounts) {
        assert (kept + [last])[..|kept|] == kept;
      }
    }
  }

  /** Overwriting (or adding) the "medscan" count in any statement's row
      never changes the filter's outcome. */
  lemma {:induction false} FilteredIgnoresMedscanCount(
    stmts: seq<Statement>, sourceCounts: SourceCounts, hash: Hash, medscanCount: int)
    requires hash in sourceCounts
    ensures Filtered(stmts, sourceCounts[hash := sourceCounts[hash][Medscan := medscanCount]])
         == Filtered(stmts, sourceCounts)
    decreases |stmts|
  {
    if stmts != [] {
      var n := |stmts| - 1;
      FilteredIgnoresMedscanCount(stmts[..n], sourceCounts, hash, medscanCount);
      NonMedscanSumIgnoresMedscan(sourceCounts[hash], medscanCount);
    }
  }

  /** The keep decision reads the table and never the evidence list: two
      batches that agree on their hashes, position by position, fail alike
      and keep the same positions. */
  lemma {:induction false} FilteredDecisionIgnoresEvidence(
    stmts: seq<Statement>, others: seq<Statement>, sourceCounts: SourceCounts)
    requires |stmts| == |others|
    requires forall i :: 0 <= i < |stmts| ==> stmts[i].hash == others[i].hash
    ensures Filtered(stmts, sourceCounts).Failure? ==> Filtered(others, sourceCounts) == Filtered(stmts, sourceCounts)
    ensures HasSourceCounts(stmts, sourceCounts) ==>
              HasSourceCounts(others, sourceCounts)
              && SurvivingIndices(stmts, sourceCounts) == SurvivingIndices(others, sourceCounts)
    decreases |stmts|
  {
    if stmts != [] {
      var n := |stmts| - 1;
      FilteredDecisionIgnoresEvidence(stmts[..n], others[..n], sourceCounts);
      FilteredSucceedsIffCounted(stmts[..n], sourceCounts);
      FilteredSucceedsIffCounted(others[..n], sourceCounts);
      assert forall i :: 0 <= i < n ==> stmts[..n][i] == stmts[i] && others[..n][i] == others[i];
    }
  }

  // ---------------------------------------------------------------------
  // Two worked batches
  // ---------------------------------------------------------------------

  /** A statement whose only counts are medscan's is dropped. */
  lemma MedscanOnlyStatementDropped()
    ensures Filtered([Statement(1, [Evidence(Medscan)])], map[1 := map[Medscan := 5]]) == Success([])
  {
    var counts := map[Medscan := 5];
    NonMedscanSumRemove(counts, Medscan);
    assert counts - {Medscan} == map[];
    assert [Statement(1, [Evidence(Medscan)])][..0] == [];
  }

  /** The table row of the next batch: only the two reach items count. */
  lemma ReachBesideMedscanCountsTwo()
    ensures NonMedscanSum(map[Medscan := 3, "reach" := 2]) == 2
  {
    var counts := map[Medscan := 3, "reach" := 2];
    var reachOnly := map["reach" := 2];
    NonMedscanSumRemove(counts, Medscan);
    assert counts - {Medscan} == reachOnly;
    NonMedscanSumRemove(reachOnly, "reach");
    assert reachOnly - {"reach"} == map[];
  }

  /** A statement with reach evidence besides medscan's is kept, and keeps its
      medscan evidence item: the list without it was built and discarded. */
  lemma KeptStatementRetainsMedscanEvidence()
    ensures var stmt := Statement(2, [Evidence(Medscan), Evidence("reach")]);
            && Filtered([stmt], map[2 := map[Medscan := 3, "reach" := 2]]) == Success([stmt])
            && Evidence(Medscan) in stmt.evidence
            && WithoutMedscan(stmt.evidence) == [Evidence("reach")]
  {
    var stmt := Statement(2, [Evidence(Medscan), Evidence("reach")]);
    var table := map[2 := map[Medscan := 3, "reach" := 2]];
    assert Filtered([stmt], table) == Success([stmt]) by {
      ReachBesideMedscanCountsTwo();
      assert Survives(stmt, table);
      assert Filtered([stmt][..0], table) == Success([]);
      assert [stmt][|[stmt]| - 1] == stmt;
      assert [] + [stmt] == [stmt];
    }
    assert WithoutMedscan(stmt.evidence) == [Evidence("reach")] by {
      assert stmt.evidence[..1] == [Evidence(Medscan)];
      assert [Evidence(Medscan)][..0] == [];
    }
  }
}
