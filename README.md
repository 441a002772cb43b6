# Dark ion channel statements: the medscan evidence filter

This project models the decision logic of `get_channel_interactions.py`. That
script queries the INDRA statement database once per ion-channel gene symbol.
For each statement it sums the evidence counts of every source except the
low-precision reader "medscan", and drops the statement when that sum is zero
(line 41). A statement whose only counts come from "medscan" is dropped, and so
is one whose row is empty; a row whose other counts sum to something nonzero,
even a negative number, is kept. It then ranks the channels by the number of
statements they kept and prints the channels left with none, the top
channel's count and the mean count (lines 47-54).

The model has six modules:

- `Wrappers` holds the `Option` and `Result` types.
- `Statements` is the data model. A statement is its hash plus its ordered
  evidence list. An evidence item is the name of its source. The source-count
  table maps a statement hash to a map from source name to count.
- `MedscanFilter` covers `non_medscan_evidence` and `filter_out_medscan`.
  - `NonMedscanSum` is the sum the generator computes, stated as a function.
    It sums the row's counts over every source except "medscan". A map has no
    order, so the lemma `NonMedscanSumRemove` shows the order of the items
    does not matter.
  - The method `NonMedscanEvidence` runs that sum item by item.
  - `Filtered` states what the filter returns. The method `FilterOutMedscan`
    is the loop itself, proved equal to it.
- `OrderedMaps` is a dictionary that remembers insertion order. The result
  mapping is a Python dict, and its order decides how `sorted` breaks ties.
- `ChannelStatements` covers the driver `get_channel_statements`. The database
  query is a function parameter `fetch` that returns a `Batch`: the statements
  and their source-count table.
- `ChannelStatistics` covers the integer part of `print_statistics`: the
  stable descending sort of (channel, count) pairs, the channels with no
  statements, and the top entry.

The filter builds a list of the non-medscan evidence items for each statement
(lines 36-40) and never assigns it back: line 43 appends the statement as it
came in. So a kept statement keeps its medscan evidence items. The model keeps
this behaviour:

- Kept statements leave the filter unchanged, evidence list included.
- The keep/drop decision reads the table only.
- `KeptStatementRetainsMedscanEvidence` shows a kept statement that still
  carries its medscan evidence item.

A statement whose hash has no row in the table makes the lookup return
`None`, and summing over it raises. The model turns this into the error value
`MissingSourceCounts(hash)`. The filter returns the error for the first such
statement, and the driver passes it on, as the uncaught exception would.

## Model

| member | source | states |
|---|---|---|
| `MedscanFilter.NonMedscanSumRemove` | get_channel_interactions.py:29 | Any item of a table row can be summed first: the non-medscan sum does not depend on the order of the row's items |
| `MedscanFilter.NonMedscanSumIgnoresMedscan` | get_channel_interactions.py:29 | Overwriting, adding or removing the "medscan" count leaves the non-medscan sum unchanged |
| `MedscanFilter.NonMedscanSumNonzero` | get_channel_interactions.py:29 | With nonnegative counts the sum is nonnegative, and nonzero exactly when some source other than "medscan" has a positive count |
| `MedscanFilter.NonMedscanEvidence` | get_channel_interactions.py:27-30 | Returns the sum of the statement's table row over sources other than "medscan"; fails with MissingSourceCounts(hash) when the hash has no row |
| `MedscanFilter.WithoutMedscan` | get_channel_interactions.py:36-40 | The evidence list built per statement holds exactly the items whose source is not "medscan" (membership in both directions), and is no longer than the original |
| `MedscanFilter.FilterOutMedscan` | get_channel_interactions.py:33-44 | The loop returns exactly `Filtered`: the surviving statements in order, or the failure of the first statement without a row; inside it the inner loop builds the per-statement list `WithoutMedscan` and then drops it |
| `MedscanFilter.WithoutMedscanMultiplicity` | get_channel_interactions.py:36-40 | The per-statement list holds each non-medscan item exactly as often as the evidence does, and no medscan item |
| `MedscanFilter.SurvivingIndices` | get_channel_interactions.py:41-43 | The kept positions are strictly increasing, in range, and include position i exactly when statement i's non-medscan sum is nonzero |
| `MedscanFilter.FilteredSucceedsIffCounted` | get_channel_interactions.py:33-44 | The filter fails exactly when some statement's hash has no row in the table |
| `MedscanFilter.FilteredFailsAtFirstUncounted` | get_channel_interactions.py:28-29 | The failure names the hash of the first statement without a row |
| `MedscanFilter.FilteredKeepsSurvivors` | get_channel_interactions.py:33-44 | The output is the input restricted to the surviving positions: an order-preserving subsequence whose statements, evidence lists included, are the input's own |
| `MedscanFilter.FilteredMembership` | get_channel_interactions.py:41-43 | A statement is in the output exactly when it is in the input and its non-medscan sum is nonzero |
| `MedscanFilter.KeptIffOtherSourceReports` | get_channel_interactions.py:27-43 | With nonnegative counts, an input statement is kept exactly when some source other than "medscan" reports evidence for it |
| `MedscanFilter.FilteredIdempotent` | get_channel_interactions.py:33-44 | An empty batch filters to an empty batch; filtering the output again with the same table gives the same output |
| `MedscanFilter.FilteredIgnoresMedscanCount` | get_channel_interactions.py:29 | Changing or adding the "medscan" count in any statement's row never changes the filter's outcome |
| `MedscanFilter.FilteredDecisionIgnoresEvidence` | get_channel_interactions.py:36-43 | Two batches with the same hashes position by position fail alike and keep the same positions, whatever their evidence lists |
| `MedscanFilter.MedscanOnlyStatementDropped` | get_channel_interactions.py:41-42 | A statement whose row is {"medscan": 5} is dropped |
| `MedscanFilter.KeptStatementRetainsMedscanEvidence` | get_channel_interactions.py:36-43 | A statement whose row is {"medscan": 3, "reach": 2} is kept with its medscan evidence item still in place, although the list without it holds only the reach item |
| `OrderedMaps.PutStores` | get_channel_interactions.py:23 | After `d[key] = value` the key maps to the value and no other key changes; an existing key keeps its place and a new key goes last |
| `ChannelStatements.GetChannelStatements` | get_channel_interactions.py:15-24 | The driver loop returns exactly `Gathered`: each channel mapped to its filtered batch, or the first filter failure |
| `ChannelStatements.GatheredSucceedsIffEveryBatchFilters` | get_channel_interactions.py:18-23 | The run completes exactly when the filter succeeds on every channel's batch |
| `ChannelStatements.GatheredFailsAtFirstFailingChannel` | get_channel_interactions.py:18-22 | A failing run reports the failure of the first channel whose batch fails |
| `ChannelStatements.GatheredMapsEachChannel` | get_channel_interactions.py:15-24 | A completed run's keys are exactly the queried channels, and each maps to the filter's output on its own batch |
| `ChannelStatements.GatheredKeepsQueryOrder` | get_channel_interactions.py:17-23 | The mapping's keys are the channels' first occurrences, ordered by the position at which each was first queried |
| `ChannelStatements.FirstOccurrencesOrdered` | get_channel_interactions.py:18-23 | The list of first occurrences repeats no channel and is ordered by first-query position |
| `ChannelStatements.FirstIndex` | get_channel_interactions.py:18 | The position returned holds the channel and no earlier position does |
| `ChannelStatements.FirstOccurrencesOfDistinct` | get_channel_interactions.py:18 | With no repeated channel, that order is the channel list itself |
| `ChannelStatistics.SortByCountSorted` | get_channel_interactions.py:48-49 | The sorted counts are non-increasing and a permutation of the (channel, count) pairs |
| `ChannelStatistics.SortByCountStable` | get_channel_interactions.py:48-49 | For every count, the pairs with that count keep their original relative order, as Python's stable `sorted(..., reverse=True)` does |
| `ChannelStatistics.NonIncreasingHeadIsMaximum` | get_channel_interactions.py:53 | In a non-increasing list no entry exceeds the first |
| `ChannelStatistics.WithCountHead` | get_channel_interactions.py:48-49 | The first row of a given count in a list comes after no other row of that count |
| `ChannelStatistics.MissingAreTheEmptyChannels` | get_channel_interactions.py:51 | The missing list holds exactly the channels with no statements, in the mapping's own order |
| `ChannelStatistics.TopIsMaximum` | get_channel_interactions.py:48-53 | The top entry exists exactly when the mapping is nonempty; it names a channel of the mapping with its count, no channel has more, and among channels tied at that count it is the first in the mapping's order (every earlier channel has fewer statements) |
| `ChannelStatistics.Statistics` | get_channel_interactions.py:47-53 | The report's counts are a non-increasing permutation of the mapping's (channel, count) pairs that keeps each count's pairs in mapping order; missing is the zero-count channels in mapping order; top is absent only for an empty mapping and is otherwise the first channel in mapping order with the largest count |
| `ChannelStatistics.MissingAfterRun` | get_channel_interactions.py:51 | After a completed run, a channel is missing exactly when it was queried and the filter kept none of its statements |

## Left out

- The database query `get_statements` and `get_source_counts()` (lines 19-21) are network calls. They become the `fetch` parameter, a total function of the channel and the evidence limit. Query failures are not modelled, and neither is the fixed `best_first=False` argument.
- INDRA's statement and evidence classes and `get_hash()` are outside the model. The hash is an opaque integer field, not computed from the content.
- The executable sum uses an arbitrary key order, because a Dafny map has no order. The Python dict's own item order is not modelled for the table rows; `NonMedscanSumRemove` shows that the sum does not depend on it.
- `numpy.mean` (line 54) is floating point. `raw_counts` (line 50) only feeds the mean. Both are left out.
- The `print` calls (lines 52-54) are left out. `Statistics` returns the values they show. On an empty mapping, indexing `counts[0]` at line 53 raises. The model reports this as a missing top entry, and the missing list is still computed, as it is printed before the failure.
- The `__main__` block (lines 57-70) is left out: pandas CSV loading, the two column filters, sorting the gene names and the pickle file write are I/O and third-party library code.
- The imports (lines 1-11) carry no logic of their own; numpy, pickle and pandas serve only the mean and the `__main__` block, both left out above.
