/** The driver: one database query per channel, each answer filtered, all
    collected into one mapping from channel to its kept statements. */
module ChannelStatements {
  import opened Wrappers
  import opened Statements
  import opened MedscanFilter
  import opened OrderedMaps

  /** One query's answer: the statements that mention the channel, and the
      source-count table for their hashes. */
  datatype Batch = Batch(statements: seq<Statement>, sourceCounts: SourceCounts)

  /** The evidence ceiling passed to every query unless the caller gives one. */
  const DefaultEvLimit: nat := 100

  /** The filter's outcome on one query's answer. */
  ghost function FilteredBatch(batch: Batch): Result<seq<Statement>, FilterError> {
    Filtered(batch.statements, batch.sourceCounts)
  }

  /** The mapping the driver builds from the channels, queried in order; the
      first batch the filter fails on ends the run. */
  ghost function Gathered(channels: seq<Channel>, fetch: (Channel, nat) -> Batch, evLimit: nat)
    : Result<OrderedMap<Channel, seq<Statement>>, FilterError>
    decreases |channels|
  {
    if channels == [] then Success(Empty())
    else
      match Gathered(channels[..|channels| - 1], fetch, evLimit)
      case Failure(e) => Failure(e)
      case Success(m) =>
        var channel := channels[|channels| - 1];
        match FilteredBatch(fetch(channel, evLimit))
        case Failure(e) => Failure(e)
        case Success(kept) => Success(Put(m, channel, kept))
  }

  /** The driver loop; `fetch` stands for the database query, which the
      model takes as given. */
  method GetChannelStatements(channels: seq<Channel>, fetch: (Channel, nat) -> Batch, evLimit: nat := DefaultEvLimit)
    returns (r: Result<OrderedMap<Channel, seq<Statement>>, FilterError>)
    ensures r == Gathered(channels, fetch, evLimit)
  {
    var allStatements: OrderedMap<Channel, seq<Statement>> := Empty();
    for i := 0 to |channels|
      invariant Gathered(channels[..i], fetch, evLimit) == Success(allStatements)
    {
      var channel := channels[i];
      var batch := fetch(channel, evLimit);
      var stmts := FilterOutMedscan(batch.statements, batch.sourceCounts);
      assert channels[..i + 1][..i] == channels[..i];
      if stmts.Failure? {
        GatheredSucceedsIffEveryBatchFilters(channels[..i], fetch, evLimit);
        GatheredFailsAtFirstFailingChannel(channels, fetch, evLimit, i);
        return Failure(stmts.error);
      }
      allStatements := Put(allStatements, channel, stmts.value);
    }
    assert channels[..|channels|] == channels;
    return Success(allStatements);
  }

  /** The run completes exactly when the filter succeeds on every channel's batch. */
  lemma {:induction false} GatheredSucceedsIffEveryBatchFilters(
    channels: seq<Channel>, fetch: (Channel, nat) -> Batch, evLimit: nat)
    ensures Gathered(channels, fetch, evLimit).Success? <==>
              forall i :: 0 <= i < |channels| ==> FilteredBatch(fetch(channels[i], evLimit)).Success?
    decreases |channels|
  {
    if channels != [] {
      var n := |channels| - 1;
      GatheredSucceedsIffEveryBatchFilters(channels[..n], fetch, evLimit);
      assert forall i :: 0 <= i < n ==> channels[..n][i] == channels[i];
    }
  }

  /** A failing run reports the failure of the first channel whose batch fails. */
  lemma {:induction false} GatheredFailsAtFirstFailingChannel(
    channels: seq<Channel>, fetch: (Channel, nat) -> Batch, evLimit: nat, i: nat)
    requires i < |channels| && FilteredBatch(fetch(channels[i], evLimit)).Failure?
    requires forall j :: 0 <= j < i ==> FilteredBatch(fetch(channels[j], evLimit)).Success?
    ensures Gathered(channels, fetch, evLimit) == Failure(FilteredBatch(fetch(channels[i], evLimit)).error)
    decreases |channels|
  {
    var n := |channels| - 1;
    if i == n {
      assert forall j :: 0 <= j < n ==> channels[..n][j] == channels[j];
      GatheredSucceedsIffEveryBatchFilters(channels[..n], fetch, evLimit);
    } else {
      assert forall j :: 0 <= j < i ==> channels[..n][j] == channels[j];
      GatheredFailsAtFirstFailingChannel(channels[..n], fetch, evLimit, i);
    }
  }

  /** A completed run maps exactly the queried channels, each to the
      filter's output on its own batch. */
  lemma {:induction false} GatheredMapsEachChannel(
    channels: seq<Channel>, fetch: (Channel, nat) -> Batch, evLimit: nat)
    requires Gathered(channels, fetch, evLimit).Success?
    ensures Valid(Gathered(channels, fetch, evLimit).value)
    ensures forall c :: c in Gathered(channels, fetch, evLimit).value.entries <==> c in channels
    ensures forall c :: c in channels ==>
              FilteredBatch(fetch(c, evLimit)).Success?
              && Gathered(channels, fetch, evLimit).value.entries[c] == FilteredBatch(fetch(c, evLimit)).value
    decreases |channels|
  {
    if channels != [] {
      var n := |channels| - 1;
      var prefix := channels[..n];
      GatheredMapsEachChannel(prefix, fetch, evLimit);
      var before := Gathered(prefix, fetch, evLimit).value;
      var channel := channels[n];
      var kept := FilteredBatch(fetch(channel, evLimit)).value;
      assert Gathered(channels, fetch, evLimit).value == Put(before, channel, kept);
      PutStores(before, channel, kept);
      assert forall c :: c in channels <==> c in prefix || c == channel;
    }
  }

  /** A completed run on channels + [c] is the completed run on channels,
      with c then stored under the filter's output on its batch. */
  lemma GatheredLast(channels: seq<Channel>, fetch: (Channel, nat) -> Batch, evLimit: nat)
    requires channels != [] && Gathered(channels, fetch, evLimit).Success?
    ensures Gathered(channels[..|channels| - 1], fetch, evLimit).Success?
    ensures FilteredBatch(fetch(channels[|channels| - 1], evLimit)).Success?
    ensures Gathered(channels, fetch, evLimit).value
         == Put(Gathered(channels[..|channels| - 1], fetch, evLimit).value,
                channels[|channels| - 1],
                FilteredBatch(fetch(channels[|channels| - 1], evLimit)).value)
  {
  }

  /** The channels in the order of their first occurrence, each once. */
  function FirstOccurrences(channels: seq<Channel>): (firsts: seq<Channel>)
    ensures forall c :: c in firsts <==> c in channels
    decreases |channels|
  {
    if channels == [] then []
    else
      var prefix, last := channels[..|channels| - 1], channels[|channels| - 1];
      assert forall c :: c in channels <==> c in prefix || c == last;
      if last in FirstOccurrences(prefix) then FirstOccurrences(prefix)
      else FirstOccurrences(prefix) + [last]
  }

  /** The position at which a channel is first queried. */
  function FirstIndex(channels: seq<Channel>, c: Channel): (p: nat)
    requires c in channels
    ensures p < |channels| && channels[p] == c && c !in channels[..p]
    decreases |channels|
  {
    var n := |channels| - 1;
    assert channels == channels[..n] + [channels[n]];
    if c in channels[..n] then
      var p := FirstIndex(channels[..n], c);
      assert channels[..p] == channels[..n][..p];
      p
    else n
  }

  /** The list of first occurrences holds no channel twice, and lists the
      channels by the position of their first query. */
  lemma {:induction false} FirstOccurrencesOrdered(channels: seq<Channel>)
    ensures forall i, j :: 0 <= i < j < |FirstOccurrences(channels)| ==>
              FirstOccurrences(channels)[i] != FirstOccurrences(channels)[j]
    ensures forall i, j :: 0 <= i < j < |FirstOccurrences(channels)| ==>
              FirstIndex(channels, FirstOccurrences(channels)[i]) < FirstIndex(channels, FirstOccurrences(channels)[j])
    decreases |channels|
  {
    if channels != [] {
      var n := |channels| - 1;
      var prefix, last := channels[..n], channels[n];
      FirstOccurrencesOrdered(prefix);
      var before := FirstOccurrences(prefix);
      var firsts := FirstOccurrences(channels);
      assert forall c :: c in before ==> FirstIndex(channels, c) == FirstIndex(prefix, c);
      if last !in before {
        assert firsts == before + [last];
        assert FirstIndex(channels, last) == n;
      }
      forall i, j | 0 <= i < j < |firsts|
        ensures FirstIndex(channels, firsts[i]) < FirstIndex(channels, firsts[j])
      {
        assert firsts[i] in before;
      }
    }
  }

  /** The mapping lists each channel once, in the order it was first queried
      (storing a repeated channel again leaves its place unchanged). */
  lemma {:induction false} GatheredKeepsQueryOrder(
    channels: seq<Channel>, fetch: (Channel, nat) -> Batch, evLimit: nat)
    requires Gathered(channels, fetch, evLimit).Success?
    ensures Gathered(channels, fetch, evLimit).value.keys == FirstOccurrences(channels)
    ensures forall i, j :: 0 <= i < j < |Gathered(channels, fetch, evLimit).value.keys| ==>
              var keys := Gathered(channels, fetch, evLimit).value.keys;
              FirstIndex(channels, keys[i]) < FirstIndex(channels, keys[j])
    decreases |channels|
  {
    if channels != [] {
      var n := |channels| - 1;
      var prefix, channel := channels[..n], channels[n];
      GatheredLast(channels, fetch, evLimit);
      GatheredKeepsQueryOrder(prefix, fetch, evLimit);
      GatheredMapsEachChannel(prefix, fetch, evLimit);
      PutStores(Gathered(prefix, fetch, evLimit).value, channel, FilteredBatch(fetch(channel, evLimit)).value);
    }
    FirstOccurrencesOrdered(channels);
  }

  /** A list with no repeated channel is its own list of first occurrences. */
  lemma {:induction false} FirstOccurrencesOfDistinct(channels: seq<Channel>)
    requires forall i, j :: 0 <= i < j < |channels| ==> channels[i] != channels[j]
    ensures FirstOccurrences(channels) == channels
    decreases |channels|
  {
    if channels != [] {
      var n := |channels| - 1;
      var prefix := channels[..n];
      forall i, j | 0 <= i < j < n ensures prefix[i] != prefix[j] {
        assert prefix[i] == channels[i] && prefix[j] == channels[j];
      }
      FirstOccurrencesOfDistinct(prefix);
      assert channels[n] !in prefix by {
        forall i | 0 <= i < n ensures prefix[i] != channels[n] {
          assert prefix[i] == channels[i];
        }
      }
      assert channels == prefix + [channels[n]];
    }
  }
}
