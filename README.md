# Wifi position search and measure ingestion (ichnaea), in Dafny

This project models two parts of the ichnaea location service.

**Wifi position search** (`ichnaea/api/locate/wifi.py`). A locate query reports
the wifi networks a device sees: each has a BSSID key and an optional signal
strength. The service then:

1. loads the known stations for those keys;
2. drops near-duplicate BSSIDs, keeping one per group of similar addresses
   (several interfaces of one access point);
3. attaches each station's reported signal, or -100 when none was reported;
4. sorts the networks by signal, strongest first;
5. clusters them by single linkage under the maximum cluster distance;
6. keeps the clusters with enough members;
7. picks the largest cluster and averages the positions of its first members
   into a position with an accuracy estimate.

Both the BSSID filter and the network clustering use the same generic pairwise
clustering routine, `cluster_elements`.

**Measure ingestion** (`ichnaea/service/submit/tasks.py`). A submitted batch has
a header (id, position, accuracy, altitude, radio) and a list of wifi or cell
entries. Each entry becomes a measure record. For wifi, blacklisted stations are
skipped, and a frequency is converted to a channel when no channel was given. Each
station's counters of new and total measures go up by one per measure; for
cells, only complete measures are counted. All of this happens in one database
transaction. It commits and returns the count of measures, returns 0 on an
integrity conflict, or is retried on any other error.

Files:

- `wrappers.dfy`: `Option`, an absent value or dictionary key.
- `clustering.dfy`: `cluster_elements` as an imperative merge loop over index clusters. It has lemmas saying the result is a partition of the items into the connected components of the threshold graph.
- `bssid.dfy`: hex decoding, the Hamming-distance loop, the per-byte and per-BSSID differences, and `filter_bssids_by_similarity`.
- `wifi_search.dfy`: `get_clusters`, `pick_best_cluster`, `aggregate_cluster_position` and `search_wifi`.
- `submit_tasks.dfy`: `convert_frequency`, the measure constructors and the counters. The two insert tasks are methods of store classes (`WifiStore`, `CellStore`) whose fields are the tables the transaction changes.

Modelling choices:

- Distances and coordinates are `real`.
- The geodesic `distance` and `estimate_accuracy` functions are parameters.
- The station query is a parameter (`wifis`).
- The outcome of the commit is a parameter (`StorageFault`): no fault, an integrity conflict, or any other failure.
- A missing dictionary key is `None` in an entry and a `KeyError` result in the model. Inside the task's `try` block, a `KeyError` leads to a retry.

## Model

| member | source | states |
|---|---|---|
| Clustering.DistanceMatrix | ichnaea/api/locate/wifi.py:38 | the matrix is square with one row per item, and row `y`, column `x` holds `distance_fn(items[x], items[y])` |
| Clustering.ClusterDistance | ichnaea/api/locate/wifi.py:41-42 | the cluster distance is at most every member-pair distance and equals one of them, so it is their minimum |
| Clustering.LinkedIffWithin | ichnaea/api/locate/wifi.py:57 | the merge test `cluster_distance(a, b) <= threshold` passes exactly when some member of `a` and some member of `b` are within the threshold |
| Clustering.Singletons | ichnaea/api/locate/wifi.py:39 | one singleton cluster `[i]` per item index |
| Clustering.SingletonsPartition | ichnaea/api/locate/wifi.py:39 | the initial singletons partition the item indices |
| Clustering.Merged | ichnaea/api/locate/wifi.py:58-59 | popping cluster `j` and extending cluster `i` with it leaves one cluster fewer |
| Clustering.MergedAt | ichnaea/api/locate/wifi.py:58-59 | after the merge, the cluster at `i`'s new position is `clusters[i] + clusters[j]`; clusters before `j` keep their position and the rest move down by one |
| Clustering.MergedPartition | ichnaea/api/locate/wifi.py:58-59 | a merge keeps the clusters a partition of the item indices |
| Clustering.MergedConnected | ichnaea/api/locate/wifi.py:57-59 | merging two linked clusters whose members are each chained by within-threshold links gives a cluster that is chained too |
| Clustering.FirstMergeablePair | ichnaea/api/locate/wifi.py:47-60 | the nested scan finds a pair `(i, j)` with `i != j` within the threshold, and no pair before it in row-major order is linked; or it reports that no distinct pair is linked |
| Clustering.ClusterElements | ichnaea/api/locate/wifi.py:25-62 | the result gathers the items by a partition of their indices. Every cluster is chained by within-threshold links. No two clusters are linked. An item within the threshold of a cluster member is in that cluster. For a symmetric distance, every cluster starts with its smallest index and clusters are ordered by that index. Merges plus final clusters equal the item count |
| Clustering.Gather | ichnaea/api/locate/wifi.py:62 | the result has one group per index cluster, and each group holds the items at that cluster's indices, in that order |
| Clustering.FirstPairIsForward | ichnaea/api/locate/wifi.py:47-57 | for a symmetric distance, the first linked pair the scan finds has `i < j` |
| Clustering.MergedHeads | ichnaea/api/locate/wifi.py:58-59 | a merge with `i < j` keeps every cluster starting with its smallest index, in ascending order of those heads |
| Clustering.SameClusterWhenAdjacent | ichnaea/api/locate/wifi.py:44-62 | two items within the threshold end up in the same cluster |
| Clustering.ClustersAreComponents | ichnaea/api/locate/wifi.py:25-62 | an item is in the cluster of `x` exactly when a chain of within-threshold links joins it to `x`: the clusters are the connected components |
| Clustering.NoMergeableDistance | ichnaea/api/locate/wifi.py:44-60 | when the loop ends, every two distinct clusters are more than the threshold apart |
| BssidFilter.HexVal | ichnaea/api/locate/wifi.py:75 | the value of one hex digit is below 16 |
| BssidFilter.BytesOfHex | ichnaea/api/locate/wifi.py:74-75 | a hex string of length `n` decodes into `(n + 1) / 2` bytes (the last chunk may be one digit) |
| BssidFilter.BytesOfHexChunks | ichnaea/api/locate/wifi.py:74-75 | byte `k` is `int(hs[2k:2k+2], 16)`, or the value of the single last digit |
| BssidFilter.BytesOfHexToHex | ichnaea/api/locate/wifi.py:74-75 | decoding the two-digit hex form of any bytes gives the bytes back |
| BssidFilter.BytesOfHexConcat | ichnaea/api/locate/wifi.py:74-75 | decoding an even-length prefix followed by a rest gives the prefix's bytes followed by the rest's |
| BssidFilter.ClearLowestBit | ichnaea/api/locate/wifi.py:82 | `v &= v - 1` clears exactly one set bit of a nonzero `v` |
| BssidFilter.HammingProperties | ichnaea/api/locate/wifi.py:77-83 | the Hamming distance of two bytes is symmetric, at most 8, and zero exactly when the bytes are equal |
| BssidFilter.HammingDistance | ichnaea/api/locate/wifi.py:77-83 | the loop returns the population count of `a ^ b`, which is at most 8 and zero exactly when `a == b` |
| BssidFilter.ByteDifference | ichnaea/api/locate/wifi.py:85-86 | the result is at most the arithmetic difference and at most the Hamming distance, and it is one of them |
| BssidFilter.ByteDifferenceProperties | ichnaea/api/locate/wifi.py:85-86 | the byte difference is symmetric, at most 8, and zero exactly when the bytes are equal |
| BssidFilter.ZipZero | ichnaea/api/locate/wifi.py:91-92 | a summed difference over zipped bytes is zero exactly when every aligned byte pair is equal |
| BssidFilter.ZipIgnoresTail | ichnaea/api/locate/wifi.py:91-92 | `zip` stops at the shorter input, so bytes after its end do not count |
| BssidFilter.BssidDifferenceProperties | ichnaea/api/locate/wifi.py:88-92 | the BSSID difference is symmetric and zero from a BSSID to itself, and it is at most 8 per aligned byte |
| BssidFilter.BssidIgnoresTrailing | ichnaea/api/locate/wifi.py:88-92 | hex characters appended after an even-length BSSID at least as long as the other do not change the difference. For an odd-length BSSID, its lone last digit pairs with the first appended one, so that case is excluded |
| BssidFilter.BssidMatrix | ichnaea/api/locate/wifi.py:38 | the matrix `cluster_elements` builds with `bssid_difference`: one row per BSSID, and row `y`, column `x` holds the difference of BSSIDs `x` and `y` |
| BssidFilter.DifferenceMatrixSymmetric | ichnaea/api/locate/wifi.py:88-95 | the BSSID distance matrix is symmetric |
| BssidFilter.ClusterBssids | ichnaea/api/locate/wifi.py:94-95 | the BSSIDs are grouped by single linkage under the threshold. The groups partition the BSSIDs, each is chained by within-threshold differences, no two are linked, each starts with its earliest BSSID and they are ordered by it. A BSSID within the threshold of a member is in that member's group |
| BssidFilter.HeadsSeparated | ichnaea/api/locate/wifi.py:94-96 | the first members of two different final clusters are more than the threshold apart |
| BssidFilter.HeadIsFirst | ichnaea/api/locate/wifi.py:94-96 | the first member of a cluster is more than the threshold away from every BSSID before it in the input |
| BssidFilter.FilterBssidsBySimilarity | ichnaea/api/locate/wifi.py:65-96 | the BSSIDs are clustered by single linkage as in `ClusterBssids`, and exactly one BSSID is kept per cluster. The kept BSSID is the cluster's member that comes first in the input. The kept BSSIDs are pairwise more than the threshold apart, and each is more than the threshold from every earlier BSSID. Any BSSID within the threshold of a cluster member is in that cluster. A nonempty input keeps at least one BSSID |
| BssidFilter.FilterComponents | ichnaea/api/locate/wifi.py:65-96 | a BSSID is in the cluster of a kept BSSID exactly when a chain of within-threshold differences joins the two |
| BssidFilter.KeptCoversAll | ichnaea/api/locate/wifi.py:65-96 | every input BSSID is joined by such a chain to some kept BSSID, so no group of similar BSSIDs is dropped |
| BssidFilter.FixtureBytes | ichnaea/api/locate/wifi.py:74-75 | "AA00BB" and "AA00BD" decode to the bytes 170, 0, 187 and 170, 0, 189 |
| BssidFilter.FixtureLastByte | ichnaea/api/locate/wifi.py:77-86 | 0xBB and 0xBD are 2 apart arithmetically and differ in 2 bits, so their byte difference is 2 |
| BssidFilter.FixtureDifference | ichnaea/api/locate/wifi.py:88-92 | the difference of "AA00BB" and "AA00BD" is 2, within the default threshold |
| BssidFilter.SimilarPair | ichnaea/api/locate/wifi.py:65-96 | two BSSIDs within the threshold form one cluster led by the first, and the filter keeps the first alone |
| BssidFilter.FilterExample | ichnaea/api/locate/wifi.py:65-96 | the single-linkage clustering of "AA00BB" and "AA00BD" under the default threshold is one cluster, and the filter keeps "AA00BB" alone |
| BssidFilter.FilterFixture | ichnaea/api/locate/wifi.py:65-96 | filtering "AA00BB" and "AA00BD" yields one cluster and keeps exactly "AA00BB" |
| WifiSearch.SignalOrDefault | ichnaea/api/locate/wifi.py:116 | `signal or -100`: a missing or zero signal becomes -100 and any other signal is kept |
| WifiSearch.LastSignal | ichnaea/api/locate/wifi.py:113-116 | the value comes from the last lookup reporting the key |
| WifiSearch.SignalMap | ichnaea/api/locate/wifi.py:113-116 | the map holds exactly the kept keys that some lookup reports, each with the signal of its last lookup |
| WifiSearch.BuildNetworksMembers | ichnaea/api/locate/wifi.py:118-120 | a network is built exactly from each station whose key was kept, with that key's signal |
| WifiSearch.SortBySignal | ichnaea/api/locate/wifi.py:123 | sorting is a permutation of the networks |
| WifiSearch.SortBySignalCorrect | ichnaea/api/locate/wifi.py:123 | the sorted networks have descending signals, and networks with equal signal keep their input order (the sort is stable) |
| WifiSearch.InsertWithSignal | ichnaea/api/locate/wifi.py:123 | inserting a network places it before every network of equal signal already in the list |
| WifiSearch.NetworkMatrix | ichnaea/api/locate/wifi.py:125-129 | the matrix `cluster_elements` builds with `wifi_distance`: row `y`, column `x` holds the geodesic distance from network `x` to network `y` |
| WifiSearch.ClusterNetworks | ichnaea/api/locate/wifi.py:128-129 | the networks are grouped by single linkage under the maximum cluster distance. The groups partition the networks, each is chained by within-distance links, and no two are linked. A network within the distance of a member is in that member's group. For a symmetric distance, each group starts with its first network in signal order and the groups are ordered by that network |
| WifiSearch.NetworkComponents | ichnaea/api/locate/wifi.py:125-129 | a network is in the cluster of another exactly when a chain of within-distance links joins the two: the clusters are the connected components |
| WifiSearch.SortedNetworks | ichnaea/api/locate/wifi.py:113-123 | the networks are exactly the stations with kept keys, each with its last reported signal. They are sorted stably by descending signal |
| WifiSearch.LargeClusters | ichnaea/api/locate/wifi.py:135 | a cluster is kept exactly when it has at least the minimum number of networks |
| WifiSearch.DissimilarKeys | ichnaea/api/locate/wifi.py:107 | the station keys are clustered by single linkage under a difference of 2, and the first key of each cluster is kept. Every key is joined to a kept one by a chain of small differences (`KeptCoversAll`). The kept keys are station keys and are pairwise more than 2 apart |
| WifiSearch.GetClusters | ichnaea/api/locate/wifi.py:99-135 | the keys are filtered as in `DissimilarKeys`. The networks are exactly the stations with kept keys and their signals, sorted by descending signal. They are grouped by single linkage under the maximum cluster distance, as in `ClusterNetworks`. The result is exactly the groups with at least the minimum size, in their order |
| WifiSearch.BestIndex | ichnaea/api/locate/wifi.py:153-156 | the index of a largest cluster, larger than every cluster before it |
| WifiSearch.PickBestCluster | ichnaea/api/locate/wifi.py:138-156 | the best cluster is one of the clusters, has the most networks, and is the first cluster of that size (the sort is stable) |
| WifiSearch.Sample | ichnaea/api/locate/wifi.py:175 | the sample is the first `min(len(cluster), MAX_WIFIS_IN_CLUSTER)` networks of the cluster |
| WifiSearch.MeanBetween | ichnaea/api/locate/wifi.py:176-178 | a mean of values in `[lo, hi]` lies in `[lo, hi]` |
| WifiSearch.MeanWithin | ichnaea/api/locate/wifi.py:176-178 | a mean lies between the smallest and the largest value |
| WifiSearch.AggregateClusterPosition | ichnaea/api/locate/wifi.py:159-181 | the result is a position. Its latitude and longitude are the means over the sample and lie between the sample's extremes. Its accuracy is `estimate_accuracy` of that centre and sample |
| WifiSearch.SearchWifi | ichnaea/api/locate/wifi.py:196-210 | with no lookups the result is empty. Otherwise the surviving clusters are those `GetClusters` states: the single-linkage groups, of at least the minimum size, of the sorted networks whose keys survived the BSSID filter. A position is found exactly when some cluster survives, and it is then the aggregate of the best cluster. The surviving clusters are nonempty and contain only queried stations |
| WifiSearch.ClustersNonEmpty | ichnaea/api/locate/wifi.py:128-135 | no surviving cluster is empty |
| SubmitTasks.ReturnValue | ichnaea/service/submit/tasks.py:77-82 | the task returns the count after a commit, 0 after an integrity conflict, and nothing when it is retried. Both insert methods state their return value through it |
| SubmitTasks.BandChannel | ichnaea/service/submit/tasks.py:89-94 | a channel exists exactly for frequencies strictly inside one of the two bands. It is 1..13 in the 2.4 GHz band and 34..165 in the 5 GHz band, and it is the floor of the offset divided by 5 |
| SubmitTasks.ConvertFrequency | ichnaea/service/submit/tasks.py:85-94 | a nonzero frequency with no `channel` key raises `KeyError`. Otherwise the frequency is removed and every other field is kept. The new channel is the band channel of the frequency when the frequency is nonzero, the channel is 0 and the frequency is in a band; in every other case it is the old channel |
| SubmitTasks.ConvertFrequencyIdempotent | ichnaea/service/submit/tasks.py:85-94 | converting a converted entry changes nothing |
| SubmitTasks.CreateWifiMeasure | ichnaea/service/submit/tasks.py:109-123 | the measure copies the header and the entry's key and id. Missing accuracy, altitude, channel and signal become 0 |
| SubmitTasks.CreateCellMeasure | ichnaea/service/submit/tasks.py:16-34 | `KeyError` exactly when `mcc` or `mnc` is missing. Otherwise the header's id and position are copied, its missing accuracy, altitude and altitude accuracy become 0, the entry's missing optional fields are 0, and the radio is left unresolved (-1) |
| SubmitTasks.CellMeasureOf | ichnaea/service/submit/tasks.py:66-72 | `KeyError` exactly when `mcc` or `mnc` is missing or no radio can be resolved. Otherwise the measure is `create_cell_measure`'s with the resolved radio |
| SubmitTasks.ResolveRadio | ichnaea/service/submit/tasks.py:69-72 | a non-empty entry radio is looked up in the radio table (-1 when unknown). Otherwise the header's radio is used, and `KeyError` when the header has none |
| SubmitTasks.Bump | ichnaea/service/submit/tasks.py:97-106 | a known key's counters both go up by one, and an unknown key starts at 1/1. Every other key is unchanged |
| SubmitTasks.CountKeysEffect | ichnaea/service/submit/tasks.py:97-106 | after counting a sequence of keys, each key's counters have grown by its number of occurrences. A new key starts at that number and other keys are unchanged |
| SubmitTasks.AcceptedKeys | ichnaea/service/submit/tasks.py:140-144 | the counted keys are exactly the entry keys that are not blacklisted |
| SubmitTasks.AcceptedKeysCount | ichnaea/service/submit/tasks.py:140-149 | a blacklisted key is never counted, and any other key is counted once per entry carrying it |
| SubmitTasks.WifiBatch | ichnaea/service/submit/tasks.py:140-147 | a successful batch has at most one measure per entry, and every measure carries the batch id and a key that is not blacklisted |
| SubmitTasks.AcceptedEntries | ichnaea/service/submit/tasks.py:140-144 | the entries kept are exactly those whose key is not blacklisted |
| SubmitTasks.WifiBatchContents | ichnaea/service/submit/tasks.py:140-147 | a successful batch holds, at position `i`, `create_wifi_measure` of the `i`-th non-blacklisted entry after `convert_frequency`, whose conversion succeeds |
| SubmitTasks.WifiBatchMatchesKeys | ichnaea/service/submit/tasks.py:140-149 | a successful batch has one measure per non-blacklisted entry, in order and with that entry's key |
| SubmitTasks.WifiBatchFails | ichnaea/service/submit/tasks.py:140-149 | a batch fails exactly when some non-blacklisted entry has a frequency but no `channel` key |
| SubmitTasks.CompleteKeys | ichnaea/service/submit/tasks.py:37-40 | the counted cell keys are exactly the keys of measures with a known radio, a nonzero lac and a nonzero cid |
| SubmitTasks.CellBatch | ichnaea/service/submit/tasks.py:65-74 | a successful batch has one measure per entry |
| SubmitTasks.CellBatchContents | ichnaea/service/submit/tasks.py:65-74 | a successful batch holds, at each position, exactly the measure `CellMeasureOf` builds from that entry |
| SubmitTasks.CellBatchFails | ichnaea/service/submit/tasks.py:65-74 | a batch fails exactly when some entry lacks `mcc` or `mnc`, or has no usable radio of its own and the header has none |
| SubmitTasks.WifiStore.UpdateWifiMeasureCount | ichnaea/service/submit/tasks.py:97-106 | the station counters become `Bump` of the old ones; the blacklist and the measures are unchanged |
| SubmitTasks.WifiStore.ProcessEntries | ichnaea/service/submit/tasks.py:140-149 | the loop fails exactly when the batch does. Otherwise it yields the batch's measures and counts every non-blacklisted key |
| SubmitTasks.WifiStore.InsertWifiMeasure | ichnaea/service/submit/tasks.py:126-158 | a failing entry means a retry. Otherwise a clean commit returns the number of non-blacklisted entries and appends their measures and counts, an integrity conflict returns 0, and any other failure retries. Without a commit, the counters and measures are unchanged |
| SubmitTasks.CellStore.UpdateCellMeasureCount | ichnaea/service/submit/tasks.py:37-57 | a complete measure bumps its cell's counters and an incomplete one changes nothing |
| SubmitTasks.CellStore.ProcessEntries | ichnaea/service/submit/tasks.py:65-74 | the loop fails exactly when the batch does. Otherwise it yields one measure per entry and counts the complete ones |
| SubmitTasks.CellStore.InsertCellMeasure | ichnaea/service/submit/tasks.py:60-82 | a failing entry means a retry. Otherwise a clean commit returns the number of entries and appends all their measures while counting the complete ones, an integrity conflict returns 0, and any other failure retries. Without a commit, nothing changes |

## Left out

- Database sessions, the Celery task machinery and `decode_datetime`: the `created` and `time` timestamps are not modelled.
- Floating point: coordinates, distances and means are exact reals.
- The geodesic `distance` and `estimate_accuracy` are parameters, because their numerics are floating-point trigonometry outside this model. The maximum cluster distance, the minimum and maximum cluster sizes and the minimum accuracy are fields of a `Config` value rather than fixed constants.
- `query_database` is not part of this model. Its result is the `wifis` parameter. The query is made with the lookups' keys (wifi.py:201-203), so every returned station key is assumed to be reported by some lookup. Were a kept key unreported, building the networks at wifi.py:118-120 would raise `KeyError`. Keys removed by the similarity filter are never looked up there, so an unreported one of those would not raise.
- Station keys are assumed to be hex strings. `int` on a two-character chunk (wifi.py:75) also accepts a few non-hex chunks, which the model's hex requirement excludes:
  - a sign: `"-a"` reads as -10, a negative "byte";
  - surrounding whitespace: `" a"` reads as 10;
  - non-ASCII decimal digits.
- WifiSearch.AggregateClusterPosition: the member order of a merged cluster is the merge order, not the signal order, so the sample is not necessarily the strongest networks and no property about its signals is claimed.
- WifiSearch.AggregateClusterPosition and WifiSearch.SearchWifi require a positive maximum cluster size. With a maximum of 0 the sample is empty, and the Python code raises `ZeroDivisionError` when it averages it (wifi.py:176-177). That failure is not modelled.
- WifiSearch.GetClusters: the order of the networks inside a cluster, which is the merge order of `cluster_elements`, is pinned only through `Gather` of the index clusters. Beyond that, the contract states membership and, for a symmetric distance, the order of the clusters.
- The `should_search_wifi` and `WifiPositionSource` wrappers only delegate and are not modelled.
- JSON `null` values in entries or headers are not distinguished from zero or absent values.
- The header fields `id`, `lat` and `lon` and the wifi entry's `key` are required fields of the datatypes. A missing one raises `KeyError`, before the `try` block for the wifi `key`, and that path is not modelled.
- SubmitTasks.ConvertFrequency: Python mutates the entry dictionary in place, while the model returns the updated entry.
- SubmitTasks.CountKeysEffect: the counters are raised by the SQL expressions `new_measures + 1` and `total_measures + 1`, evaluated when the session flushes. The model adds one per occurrence. In the wifi task, no query runs between two occurrences of the same station in one batch, so the database may apply a single increment where the model counts two. That ORM behaviour is outside this model.
- SubmitTasks.CreateCellMeasure: the measure carries radio -1 until the radio is resolved, which always happens before it is counted or stored.
- SubmitTasks.WifiStore.InsertWifiMeasure: the race with concurrent writers behind an `IntegrityError` is abstracted as the `fault` parameter. A conflict raised while the cell query autoflushes is folded into the commit outcome in `SubmitTasks.CellStore.InsertCellMeasure` too.
- The threshold of the BSSID filter bounds the sum of the per-byte differences, not each byte on its own. The model follows the code here. A nonzero frequency with no `channel` key at all raises `KeyError`, which retries the task; it is not treated as "no channel".
