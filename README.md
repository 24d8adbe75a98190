# quickrib in Dafny

This project models the core of quickrib, a tool that rebuilds the BGP routing tables
(RIBs) of RIPE RIS and RouteViews route collectors over a time window.

It starts from the collectors' RIB snapshots. It then applies their update files in time
order. After each step it reports the result to a set of observers. An observer can keep
an AS-level graph, a per-peer multigraph, path counts or update counters. It dumps its
state at regular checkpoints. At the end it compares the rebuilt table with the collector's
own RIB at that time.

The model covers these parts:

- **`RIBTable`** (rib_table.py). This is the nested table `collector -> peer_ip -> prefix ->
  AS path`, plus its observer list and stop flags.
  - The pure logic of one bootstrap line and one update record is in module `Rib`.
  - That logic is lifted to whole files and all collectors, as the imperative class
    `Tables.RIBTable`.
  - Every hook call it makes is recorded in a ghost log. Its effect on each attached
    observer is stated by `Advanced`: every observer's state is the fold of its own step
    function over the events, applied once per attachment.
- **The observers** (observers/).
  - `ASGraphObserver` and `ASMultiGraphObserver` (graph.py) keep edge weights as maps.
    - Edges are undirected, as in networkx.
    - The multigraph keys each edge by `"<rc>_<peer_ip>"`.
  - `PathObserver` (path.py) counts paths and builds a length histogram.
  - `UpdateCountObserver` (update_count.py) keeps six update counters.
  - Each observer is a class whose hook methods change its fields. Each hook is proved
    against a step function on values, and the step functions carry the lemmas.
  - The `Observer` base class of observer.py becomes the closed datatype
    `Observers.Observer`, with one case per concrete class.
- **Archive URLs** (url_generation.py). This covers the RIS and RouteViews URL formats,
  `url_to_filename` and `filename_to_rc`, together with the round trip from collector to URL
  to filename to collector.
- **The scheduling arithmetic and processing order** (main.py).
  - Times are whole seconds since the epoch.
  - The collectors are classified into projects.
  - The start is snapped to the nearest RIB time, and the end to the nearest 15-minute
    mark.
  - The update-time grids, the dump checkpoints and the ground-truth comparison flag are
    computed.
  - `warm_update_process` runs as the loop `Downloader.WarmUpdate`. It is proved equal to
    the recursive specification `Downloader.RunSteps`.

Python exceptions are values of `Common.PyError` (`ValueError`, `KeyError`,
`ZeroDivisionError` and so on). An operation that can raise returns a `Result` or an
`Option<PyError>`. An exception that would end the program ends the modelled loop at the
same point.

## Model

| member | source | states |
|---|---|---|
| AsPath.ParseInt | rib_table.py:222 | `int(token)` succeeds only on a non-empty token that starts with a digit or a sign |
| AsPath.Collapse | rib_table.py:222 | the keys of `groupby`: never longer than the input, no two neighbours equal, the first element kept, the same set of elements |
| AsPath.CollapseSnoc | rib_table.py:222 | appending an element extends the last run when it equals the last element and opens a new run otherwise; with the empty case this determines the run keys completely |
| AsPath.ParseAll | rib_table.py:321-322 | the list comprehension fails exactly when some token fails `int()`; otherwise element i is `int(token i)` |
| AsPath.ParsePathFails | rib_table.py:222 | parsing an AS path string fails iff one of its space-separated tokens is not an integer |
| AsPath.AsSetRejected | rib_table.py:320-334 | a path that contains an AS_SET token `{...}` never parses, so it takes the ValueError branch |
| AsPath.ParseDecimal | rib_table.py:222 | `int()` of the decimal text of n gives back n |
| AsPath.CollapseDecimals | rib_table.py:222 | grouping the rendered ASNs is the same as rendering the grouped ASNs |
| AsPath.ParseAllDecimals | rib_table.py:321-322 | parsing the rendered tokens of a path gives back the path |
| AsPath.ParseRendered | rib_table.py:222 | round trip: parsing the space-joined rendering of a path gives the path with repeated neighbours (prepending) collapsed |
| ObserverApi.FamilyOf | rib_table.py:229-234 | a prefix is routed to the IPv4 hooks iff it contains '.', to the IPv6 hooks iff it has no '.' but has a ':', and to no hook otherwise |
| ObserverApi.BaseSettings | observers/observer.py:40-43 | the constructor keeps name, output_dir and time_fmt as given |
| ObserverApi.DefaultSettings | observers/observer.py:40 | the defaults are "observer", "./" and "%Y%m%d.%H%M" |
| Counts.IncAllCount | observers/graph.py:130-136 | after adding a sequence of keys, every key's count grew by the number of times it occurs in the sequence |
| Counts.IncAllPositive | observers/graph.py:130-136 | adding keys keeps every stored count positive |
| Counts.DecAllPositive | observers/graph.py:118-128 | removing keys, with deletion at zero and missing keys ignored, keeps every stored count positive |
| Counts.DecAllCount | observers/graph.py:118-128 | removing keys that are all present lowers each count by the key's multiplicity |
| Counts.IncThenDecAll | observers/graph.py:118-136 | removing what was just added restores the map exactly, deleted entries included |
| Counts.IncThenDec | observers/path.py:20-27 | one add then one remove of the same key restores a positive count map |
| Counts.UntouchedKeys | observers/graph.py:228-248 | a key outside the sequence keeps its count under both add and remove |
| Counts.TotalRemove | observers/update_count.py:33 | the sum of a counter map splits into one entry plus the rest |
| Counts.TotalInc | observers/update_count.py:33 | bumping one per-peer counter raises the sum of the counters by one |
| Graph.MkEdge | observers/graph.py:120 | an undirected edge is the ordered pair of its endpoints, in either orientation |
| Graph.Pairs | observers/graph.py:119-120 | the consecutive AS pairs of a path: len(path)-1 of them, none for a path of length 0 or 1 |
| Graph.AddPathWellFormed | observers/graph.py:130-136 | adding a path keeps the graph well formed: positive counts and both endpoints of every edge among the nodes |
| Graph.RemovePathWellFormed | observers/graph.py:118-128 | removing a path keeps the graph well formed |
| Graph.AddPathCounts | observers/graph.py:130-136 | each edge's paths_count grows by the number of times the path crosses it |
| Graph.AddPathOrderListsNodes | observers/graph.py:130-136 | the order in which `_add_path` enters nodes lists exactly the nodes of the new graph |
| Graph.AddThenRemovePath | observers/graph.py:118-136 | removing a path just added restores every paths_count; nodes are never removed |
| Graph.ShortPathNoOp | observers/graph.py:118-136 | a path with fewer than two ASes leaves the graph unchanged |
| Graph.MultiOtherKeysUntouched | observers/graph.py:228-248 | a multigraph update for one `<rc>_<peer_ip>` key leaves every other key's edges unchanged |
| Graph.MultiAddThenRemove | observers/graph.py:228-248 | removing from the multigraph a path just added under the same key restores it exactly |
| Graph.GraphStepWellFormed | observers/graph.py:58-90 | every hook call keeps both graph families well formed |
| Graph.GraphStepKeepsOtherFamily | observers/graph.py:58-90 | an IPv4 hook never touches the IPv6 graph, and the reverse |
| Graph.AnnounceSamePathKeepsCounts | observers/graph.py:72-90 | re-announcing the stored path (remove old, add new) leaves the counts as they were |
| Graph.MultiGraphStepWellFormed | observers/graph.py:228-248 | every hook call keeps the multigraph's counts positive |
| Graph.CompareWeightedGraphs | observers/graph.py:255-287 | the comparison on undirected edges: added nodes are exactly the second graph's nodes missing from the first, removed nodes the reverse; added edges are exactly the second graph's edges the first lacks, removed edges the reverse; a shared edge is modified iff its two weights differ, and then carries (first weight, second weight) |
| Graph.CompareReportsNothingIffEqual | observers/graph.py:255-287 | the undirected comparison reports no difference iff the two graphs have the same nodes and the same weighted edges |
| Graph.CompareSwapped | observers/graph.py:264-270 | swapping the graphs swaps added and removed, and keeps the modified edges |
| Graph.Listed | observers/graph.py:267-273 | `edges()` lists an edge as one of its two orientations, starting from the endpoint that entered the graph first |
| Graph.CompareListedAddedEdges | observers/graph.py:267-268 | as written, subtracting both orientations makes the added edges exactly those of the undirected comparison |
| Graph.CompareListedRemovedEdges | observers/graph.py:269-270 | as written, the removed edges are exactly those of the undirected comparison |
| Graph.CompareListedModifiedAgree | observers/graph.py:272-279 | every modified edge the code as written reports is reported by the undirected comparison with the same two weights |
| Graph.CompareListedMissesReversedEdge | observers/graph.py:272-279 | as written, the path 1 2 added once against the path 2 1 added twice reports nothing, while the weights of the shared edge differ (1 against 2) |
| Graph.PruneIsolates | observers/graph.py:201 | removing isolates keeps every edge and only drops nodes |
| Graph.PruneIsolatesWellFormed | observers/graph.py:201 | removing the isolates keeps a graph well formed |
| Graph.PruneIsolatesIdempotent | observers/graph.py:201 | after one pruning no isolated node is left, so a second pruning changes nothing |
| Graph.AddEdges | observers/graph.py:130-136 | the `_add_path` loop computes the add-path specification |
| Graph.RemoveEdges | observers/graph.py:118-128 | the `_remove_path` loop computes the remove-path specification |
| Graph.BumpEdge | observers/graph.py:245-248 | the try/except increment creates a missing keyed edge with count 1 |
| Graph.AddKeyedEdges | observers/graph.py:241-248 | the multigraph `_add_path` loop computes its specification |
| Graph.RemoveKeyedEdges | observers/graph.py:228-239 | the multigraph `_remove_path` loop computes its specification |
| Graph.DumpFamily | observers/graph.py:173-193 | the dump loop yields one row per graph edge present in the multigraph, with paths_count and the number of peer keys |
| Graph.ASMultiGraphObserver.constructor | observers/graph.py:223-226 | starts with two empty multigraphs and the given settings |
| Graph.ASMultiGraphObserver.AddPathTo | observers/graph.py:241-248 | the family's multigraph becomes its add-path specification under key `<rc>_<peer_ip>` |
| Graph.ASMultiGraphObserver.RemovePathFrom | observers/graph.py:228-239 | the family's multigraph becomes its remove-path specification |
| Graph.ASMultiGraphObserver.AddPathHook | observers/graph.py:58-62 | the state moves by one step of the multigraph step function |
| Graph.ASMultiGraphObserver.UpdateWithdrawal | observers/graph.py:64-70 | the state moves by one step of the multigraph step function |
| Graph.ASMultiGraphObserver.UpdateAnnouncement | observers/graph.py:72-90 | the state moves by one step: the old path is removed only when it is truthy, then the new path is added |
| Graph.ASGraphObserver.constructor | observers/graph.py:104-116 | starts with two empty graphs, the given settings and the given multigraph observer |
| Graph.ASGraphObserver.AddPathTo | observers/graph.py:130-136 | the family's graph becomes its add-path specification |
| Graph.ASGraphObserver.RemovePathFrom | observers/graph.py:118-128 | the family's graph becomes its remove-path specification |
| Graph.ASGraphObserver.AddPathHook | observers/graph.py:58-62 | the state moves by one step of the graph step function |
| Graph.ASGraphObserver.UpdateWithdrawal | observers/graph.py:64-70 | the state moves by one step of the graph step function |
| Graph.ASGraphObserver.UpdateAnnouncement | observers/graph.py:72-90 | the state moves by one step of the graph step function |
| Graph.ASGraphObserver.Dump | observers/graph.py:138-195 | with a multigraph, the IPv4 and IPv6 rows are the specified dump rows; without one, the `self.as_graph_ipv4` branch raises AttributeError |
| Graph.ASGraphObserver.Compare | observers/graph.py:197-214 | prunes the isolates of its own IPv4 graph in place, then reports the weighted comparison (on undirected edges) with the other IPv4 graph |
| PathCount.RemovePath | observers/path.py:23-27 | decrement, and pop at or below zero: a path stays iff its count was above 1; other paths are untouched |
| PathCount.RemovePathIsDec | observers/path.py:23-27 | on positive counts this is the same decrement as the graph edges use |
| PathCount.PathStepPositive | observers/path.py:20-51 | every hook call keeps all path counts positive |
| PathCount.AnnouncementMovesCount | observers/path.py:43-51 | an announcement with an old path moves one count from the old path to the new one |
| PathCount.AddThenWithdraw | observers/path.py:20-41 | withdrawing a path just added restores the counts exactly |
| PathCount.WithLengthGrows | observers/path.py:56-58 | one more path raises the histogram bucket of its length by one |
| PathCount.HistogramBuckets | observers/path.py:55-58 | every stored path is counted in the histogram bucket of its length |
| PathCount.HistogramTotal | observers/path.py:55-58 | the buckets of the length histogram of a set of paths add up to the number of paths |
| PathCount.HistogramSumsToUniquePaths | observers/path.py:55-62 | the values of `paths_length_count` sum to `n_unique_paths` |
| PathCount.PathObserver.constructor | observers/path.py:14-18 | starts with no path counts |
| PathCount.PathObserver.AddPathTo | observers/path.py:20-21 | increments the path's count |
| PathCount.PathObserver.RemovePathFrom | observers/path.py:23-27 | the counts become RemovePath of the old counts |
| PathCount.PathObserver.AddPathHook | observers/path.py:29-33 | the counts move by one step of the path step function |
| PathCount.PathObserver.UpdateWithdrawal | observers/path.py:35-41 | the counts move by one step of the path step function |
| PathCount.PathObserver.UpdateAnnouncement | observers/path.py:43-51 | the counts move by one step of the path step function |
| PathCount.PathObserver.Dump | observers/path.py:53-64 | n_unique_paths is the number of distinct paths, paths_count is the current counts, paths_length_count is the length histogram, and its values sum to n_unique_paths |
| UpdateCount.NoCountsConsistent | observers/update_count.py:12-19 | the fresh counters are consistent: the per-kind counts add up to n_updates, and so do the per-peer counts |
| UpdateCount.CountStepConsistent | observers/update_count.py:29-49 | every hook call keeps the counters consistent |
| UpdateCount.CountStepAt | observers/update_count.py:29-49 | for every collector, each counter grows by exactly 1 when the event is an update of that kind at that collector, and stays the same otherwise |
| UpdateCount.KindsStep | observers/update_count.py:29-49 | withdrawals plus announcements of both families stay equal to n_updates |
| UpdateCount.PeersStep | observers/update_count.py:29-49 | the per-peer counts of each collector keep adding up to n_updates |
| UpdateCount.PeerCountsBumped | observers/update_count.py:33 | an update bumps exactly its peer's per-peer counter at its collector |
| UpdateCount.CountStepEffect | observers/update_count.py:21-49 | an update raises its collector's n_updates by one; a RIB add-path, a dump or another collector changes nothing there |
| UpdateCount.UpdateCountObserver.constructor | observers/update_count.py:12-19 | starts with all counters empty |
| UpdateCount.UpdateCountObserver.AddPathHook | observers/update_count.py:21-27 | RIB add-path calls count nothing |
| UpdateCount.UpdateCountObserver.CountUpdate | observers/update_count.py:31-33 | bumps n_updates and the per-peer counter of the collector |
| UpdateCount.UpdateCountObserver.UpdateWithdrawal | observers/update_count.py:29-39 | the counters move by one step of the count step function |
| UpdateCount.UpdateCountObserver.UpdateAnnouncement | observers/update_count.py:41-49 | the counters move by one step of the count step function |
| UpdateCount.UpdateCountObserver.Dump | observers/update_count.py:51-60 | the dumped dictionary is the current counters, which are consistent |
| Observers.StepValid | rib_table.py:109-133 | delivering any hook call keeps an observer's invariant |
| Observers.RepeatValid | rib_table.py:109-133 | delivering a call n times (n attachments) keeps the invariant |
| Observers.RepeatKeepsKind | rib_table.py:109-133 | hook calls never change what kind of observer it is |
| Observers.RepeatDump | rib_table.py:135-137 | a dump leaves every observer's state unchanged |
| Observers.FanOut | rib_table.py:109-137 | a notification calls every attached observer once, in attachment order |
| Observers.RepeatAllAppend | rib_table.py:109-133 | applying two batches of calls in turn is the same as applying them joined |
| Observers.RepeatAllValid | rib_table.py:109-133 | any batch of calls keeps the invariant |
| Observers.FanOutAllAppend | rib_table.py:109-133 | the calls made for two batches of events are those of each batch in turn |
| Observers.FanOutAllLength | rib_table.py:109-133 | n events reach m observers in exactly n*m calls |
| Observers.IndexOf | rib_table.py:107 | the first occurrence of an observer in the list |
| Observers.RemoveFirst | rib_table.py:107 | `list.remove` drops exactly one copy: the multiset shrinks by that observer |
| Observers.RemoveFirstKeepsOrder | rib_table.py:107 | the removed copy is the first one, and the others keep their order |
| Observers.MatchPairs | rib_table.py:165-168 | compare pairs hold an observer of each table |
| Observers.MatchPairsExact | rib_table.py:165-168 | (a, b) is compared iff a is own, b is other's, and their names match |
| Observers.SameName | rib_table.py:166-168 | each pair found for one other observer has its name |
| Observers.SameNameExact | rib_table.py:166-168 | an own observer is paired with the other observer iff their names match |
| Observers.DumpReach | rib_table.py:135-137 | how far the dump loop gets: all observers before it dump cleanly, and it stops at the first that raises |
| Observers.Deliver | rib_table.py:110-133 | a hook call moves the observer by exactly one step of its kind's step function |
| Observers.DeliverDump | rib_table.py:136-137 | a dump raises exactly the observer's dump error (the graph observer without a multigraph) |
| Observers.CompareWith | rib_table.py:168 | graph vs graph compares; graph vs a path or count observer raises AttributeError; the multigraph raises NotImplementedError; path and count observers do nothing |
| Rib.AddPathEvents | rib_table.py:229-234 | a stored bootstrap entry yields one add-path call of the prefix's family, or none |
| Rib.WithdrawEvents | rib_table.py:305-310 | a withdrawal of a stored prefix yields one withdrawal call of its family, or none |
| Rib.AnnounceEvents | rib_table.py:338-350 | an announcement yields one announcement call of its family, or none |
| Rib.BuildLine | rib_table.py:213-239 | a line raises ValueError iff it has fewer than 7 fields or a bad peer ASN; a line is stored iff it passes the peer filter and its path parses and is valid |
| Rib.BuildProvenance | rib_table.py:213-239 | every stored (peer, prefix) comes from some line that produced it |
| Rib.BuildLastLineWins | rib_table.py:226 | the last line for a (peer, prefix) decides the stored path |
| Rib.BuildFailureSticks | rib_table.py:213-217 | once a line raises, the rest of the file is not read |
| Rib.ParseMicros | rib_table.py:279 | a parsed record time is never negative |
| Rib.DigitsHaveNoDot | rib_table.py:279 | a digits-only time field has no fractional part |
| Rib.ParseWholeSeconds | rib_table.py:279 | a whole-second timestamp is read as that many seconds |
| Rib.WithdrawalRecord | rib_table.py:302-311 | an in-window W record removes the stored prefix and reports its old path, and does nothing if nothing is stored |
| Rib.ValidAnnouncementRecord | rib_table.py:336-352 | a valid announcement for a known peer stores the new path and reports the old one, or None |
| Rib.InvalidAnnouncementRecord | rib_table.py:319-363 | an unparsable or invalid announced path acts as a withdrawal of the prefix |
| Rib.IgnoredRecords | rib_table.py:282-371 | early records, filtered peers, unknown peers and other record types change nothing |
| Rib.StoppingRecords | rib_table.py:282-315 | a record from ts_start on and later than ts_end plus one second stops the file; an in-window announcement with a bad peer ASN raises ValueError |
| Rib.UpdateAbandonsRest | rib_table.py:289-291 | after a stop or an exception the rest of the file is not read |
| Rib.RecordKeepsShape | rib_table.py:302-366 | a record never adds or removes peers, and every stored path stays valid |
| Rib.UpdateKeepsShape | rib_table.py:277-371 | a whole update file never adds or removes peers, and every stored path stays valid |
| Rib.BuildPathsValid | rib_table.py:223-226 | every path a bootstrap stores has at least two ASes |
| Rib.BuildStartsWithPeerAsn | rib_table.py:215-226 | every path a bootstrap stores is valid for the peer ASN of a line for that peer and prefix: at least two ASes, starting with that ASN |
| Rib.DictDiff | rib_table.py:384-407 | added = keys only in the second dict, removed = keys only in the first, modified = shared keys with different values, paired as (first, second) |
| Rib.DictDiffPartition | rib_table.py:392-405 | the three parts are disjoint and together cover exactly the keys where the dicts differ |
| Rib.DictDiffEmptyIff | rib_table.py:384-407 | the diff is empty iff the dicts are equal |
| Rib.DictDiffSwap | rib_table.py:395-405 | swapping the dicts swaps added and removed, and flips each modified pair |
| Tables.BuildTableShape | rib_table.py:171-176 | a successful build has one table per collector, and every stored path is valid |
| Tables.BuildTableFailureSticks | rib_table.py:173-174 | an exception in one collector's file ends the build |
| Tables.UpdateTableShape | rib_table.py:252-255 | updates keep the collectors and peers and the validity of every path, and never clear a stop flag |
| Tables.UpdateTableFailureSticks | rib_table.py:254-255 | an exception in one collector's file ends the update |
| Tables.Vivified | rib_table.py:142-144 | indexing the other table's defaultdict adds empty entries only for own peers it lacks, keeps every entry it has, and adds no collector |
| Tables.CollectorDiffs | rib_table.py:143-150 | a peer is diffed iff both tables have it and the ground truth has routes for it |
| Tables.PeerDiffs | rib_table.py:142-150 | there is a diff for every collector of the own table; one the other table lacks has no peer diffs |
| Tables.CollectorDiffsIgnoreEmpty | rib_table.py:144-145 | peers the ground truth lacks or has empty never produce a diff |
| Tables.PeerDiffsIgnoreVivified | rib_table.py:142-150 | the entries created by vivification do not change the diffs |
| Tables.PeerDiffsOfEqualTables | rib_table.py:149-153 | a peer's diff is empty iff its two tables are equal |
| Tables.FirstDumpError | rib_table.py:135-137 | a dump fails iff some observer's dump raises, and then it is the first such observer's error |
| Tables.PairFailureSticks | rib_table.py:165-168 | the first compare pair that raises decides the outcome |
| Tables.FirstPairErrorNone | rib_table.py:165-168 | the observer comparison succeeds iff no pair raises |
| Tables.NotifyLoop | rib_table.py:109-133 | the notify loop moves every attached observer by one step |
| Tables.DumpLoop | rib_table.py:135-137 | the dump loop changes no observer state and returns the first dump error |
| Tables.CompareObservers | rib_table.py:165-168 | the nested loop raises iff some pair raises; otherwise graph pairs give their comparison and all others nothing |
| Tables.ComparePair | rib_table.py:167-168 | one pair's comparison, with only the own graph's isolates pruned |
| Tables.RIBTable.constructor | rib_table.py:80-101 | no observers, empty data and stop flags, the given filter and window |
| Tables.RIBTable.AttachObserver | rib_table.py:103-104 | appends the observer |
| Tables.RIBTable.DetachObserver | rib_table.py:106-107 | removes its first occurrence, or raises ValueError if it is not attached |
| Tables.RIBTable.Notify | rib_table.py:109-133 | one hook call reaches each attached observer once, in order, and nothing else changes |
| Tables.RIBTable.NotifyAll | rib_table.py:109-133 | a batch of hook calls reaches each observer in order |
| Tables.RIBTable.BuildRib | rib_table.py:178-250 | the bootstrap loop yields the specified collector table, error and hook calls |
| Tables.RIBTable.StoreLine | rib_table.py:214-239 | one line of the bootstrap file stores a valid path and reports it, skips the rest, or raises, as the build specification says |
| Tables.RIBTable.BuildNext | rib_table.py:173-174 | one collector of `build` joins the tables built so far with its file's table, calls and error |
| Tables.RIBTable.Build | rib_table.py:171-176 | data becomes the built table and every stop flag False, or an exception leaves both as they were; observers see exactly the build's calls |
| Tables.RIBTable.WithdrawIn | rib_table.py:303-311 | pops a stored prefix after telling the observers |
| Tables.RIBTable.AnnounceIn | rib_table.py:314-366 | applies an announcement to a known peer as specified |
| Tables.RIBTable.StorePath | rib_table.py:336-352 | a valid new path is reported with the entry it replaces, then stored; nothing else in the table changes |
| Tables.RIBTable.ApplyRecord | rib_table.py:277-371 | one record changes data and the observers exactly as its specification says, or stops, or raises |
| Tables.RIBTable.MarkStopped | rib_table.py:289-291 | sets the collector's stop flag and nothing else |
| Tables.RIBTable.UpdateRib | rib_table.py:257-373 | the update loop over one file matches the file specification: data, stop flag, error and hook calls |
| Tables.RIBTable.Update | rib_table.py:252-255 | data, stop flags and the error are those of the table update specification |
| Tables.RIBTable.NotifyDump | rib_table.py:375-377 | dumping changes no state, calls observers up to the first that raises, and returns that error |
| Tables.RIBTable.Compare | rib_table.py:139-168 | KeyError iff an own collector with at least one peer is missing from the other table, and then each collector of the other table is left as it was or vivified; otherwise the peer diffs and the observer comparisons, with the other table vivified |
| Urls.Zeros | url_generation.py:17 | k zero digits |
| Urls.Padded | url_generation.py:17 | a zero-padded decimal field is all digits |
| Urls.DateText | url_generation.py:17 | `%Y%m%d` is all digits |
| Urls.TimeText | url_generation.py:17 | `%H%M` is all digits |
| Urls.PathJoinAfterName | url_generation.py:17 | os.path.join after a name inserts one '/' between parts |
| Urls.PathJoinUnderBase | url_generation.py:17 | os.path.join after a base ending in '/' adds no second '/' |
| Urls.SplitExt | url_generation.py:55 | os.path.splitext gives "" or a dot-led extension with no '/' |
| Urls.RisUrl | url_generation.py:11-17 | an unknown type leaves the local unbound (UnboundLocalError) iff it is neither rib nor update |
| Urls.RvUrl | url_generation.py:19-29 | an unknown type leaves the local unbound (UnboundLocalError) iff it is neither rib nor update |
| Urls.GetUrl | url_generation.py:31-36 | an `rrc` collector or one containing "route-views" gets a URL iff the type is known; any other collector raises ValueError |
| Urls.UrlCollector | url_generation.py:41-45 | a URL with too few '/' fields raises IndexError |
| Urls.UrlToFilename | url_generation.py:38-55 | fails iff the collector cannot be found |
| Urls.FilenameToRc | url_generation.py:57-62 | fails iff a name starting with "route-views" has no second dot-field |
| Urls.ArchiveNameFields | url_generation.py:11-29 | an archive name splits into kind, date, time and extension |
| Urls.UrlToFilenameOfFields | url_generation.py:38-55 | the filename is `<rc>.<type>.<date>.<time>.<ext>` |
| Urls.RisUrlFields | url_generation.py:11-17 | the RIS URL is `https://data.ris.ripe.net/<rc>/<Y.m>/<bview or updates>.<date>.<time>.gz` |
| Urls.RvUrlFields | url_generation.py:19-29 | the RouteViews URL, with the route-views2 special case that has no collector directory |
| Urls.RisCollector | url_generation.py:41-45 | the collector of a RIS URL is its fourth '/' field |
| Urls.RvCollector | url_generation.py:41-45 | the collector of a RouteViews URL is recovered |
| Urls.RvCollectorWithoutDirectory | url_generation.py:42-43 | a route-views2 URL, which has no collector directory, gives "route-views2" |
| Urls.FilenameToRcOf | url_generation.py:57-62 | a dot-free collector name, or one of the form route-views.X, is recovered from the filename |
| Urls.RisFilename | url_generation.py:11-55 | the filename of a RIS URL |
| Urls.RvFilename | url_generation.py:19-55 | the filename of a RouteViews URL |
| Urls.RoundTrip | url_generation.py:11-62 | collector to URL to filename to collector gives back the collector, for the names it holds for |
| Urls.BareRouteViews | url_generation.py:57-62 | for the bare name "route-views", the round trip returns "route-views.<type>" |
| Schedule.ProjectOf | main.py:117-123 | "rrc" prefix gives RIS, else containing "route-views" gives RV, else ValueError |
| Schedule.ClassifyProjects | main.py:116-123 | the loop raises iff some collector is unrecognised, and otherwise yields the set of their projects |
| Schedule.FirstArgMin | main.py:138-139 | np.argmin: the first index of a minimum |
| Schedule.FirstArgMinUnique | main.py:138-139 | any index that is a minimum with no earlier minimum is the argmin |
| Schedule.NearestIsGridPoint | main.py:138-139 | on an arithmetic candidate list, the argmin is the grid point nearest the target |
| Schedule.StartCandidates | main.py:132-137 | 10 candidates 8 hours apart with RIS, else 50 candidates 2 hours apart |
| Schedule.SnapStartNearest | main.py:132-140 | the snapped start is a multiple of the RIB step, within half a step, the nearest such multiple, and the earlier one on ties |
| Schedule.EndCandidates | main.py:145-146 | 10 candidates 15 minutes apart from the previous hour |
| Schedule.SnapEndNearest | main.py:145-149 | the snapped end is the nearest multiple of 15 minutes, within half of that, earlier on ties |
| Schedule.ProgressionShape | main.py:157-158 | the list comprehension is an arithmetic progression with the given first and last terms |
| Schedule.UpdateTimesShape | main.py:155-164 | update times are spaced by the resolution, start one step before the start, and end more than one step past the end |
| Schedule.Checkpoints | main.py:262-264 | raises ZeroDivisionError iff the interval is 0 |
| Schedule.CheckpointsWithin | main.py:262-264 | the checkpoints are exactly the times after the start, up to the end, that lie on the interval grid |
| Schedule.CheckpointBounds | main.py:262-264 | the truncating int() bound keeps exactly the grid times in (start, end] |
| Schedule.RibTimeOnGrid | main.py:183-203 | at a whole minute, a RIS RIB time is a multiple of 8 hours and an RV RIB time a multiple of 2 hours |
| Schedule.CompareFlag | main.py:182-213 | with both projects and an RV RIB time, a route-views collector reaches `ts_end % 8`, which raises TypeError; otherwise the flag is set iff the RIS or the RV condition holds |
| Schedule.CompareFlagRaisesAtMidnight | main.py:206-209 | the TypeError is reachable: with both projects, a "route-views2" collector meets the guard at midnight, which is a RIB time of both projects |
| Schedule.CompareFlagIntended | main.py:182-213 | with `ts_end.hour % 8` in place of `ts_end % 8`: the flag never raises, and it is set iff an rrc collector meets a RIS RIB time, a route-views collector meets an RV RIB time with one project, or a route-views collector meets a RIS RIB time with both projects; with both projects the flag is set only at a RIB time of both |
| Schedule.RisRibIsRvRib | main.py:188-203 | every RIS RIB time is also an RV RIB time |
| Downloader.RunSteps | main.py:309-332 | processes at least one timestamp when there is one, and never more than there are |
| Downloader.UpdateTableAppend | main.py:309-323 | updating with two batches in turn equals updating with both joined |
| Downloader.RunIsOneUpdate | main.py:309-332 | the table, stop flags, hook calls and error of the loop are those of one update over all files it processed |
| Downloader.RunStopsFirst | main.py:331-332 | the loop ends early only when every collector has stopped, and never after an earlier step stopped them all |
| Downloader.RunDumps | main.py:326-328 | the loop dumps at exactly the processed timestamps that are checkpoints |
| Downloader.CheckpointTimesAre | main.py:326-327 | a time is dumped iff it is a checkpoint and some update step has it |
| Downloader.DumpsWithinWindow | main.py:262-327 | every dump time lies after the start, up to the end, on the interval grid |
| Downloader.DumpAt | main.py:301 | a dump changes no state and returns the first dump error |
| Downloader.UpdateAt | main.py:323 | one `rib_table.update` is one table update |
| Downloader.LoopStep | main.py:309-332 | one loop iteration: update, dump iff a checkpoint, and the break condition |
| Downloader.Round | main.py:323-332 | one iteration moves the loop's run forward by one timestamp and tells whether it ends the loop |
| Downloader.UpdateLoop | main.py:309-332 | the loop computes the RunSteps specification |
| Downloader.WarmUpdate | main.py:257-332 | interval 0 raises ZeroDivisionError before anything changes; otherwise build, dump at the start and run the loop as specified, or stop at the first exception |
| Downloader.NewObservers | main.py:278-285 | four fresh observers with their names and output directory; the graph observer holds the multigraph observer |
| Downloader.AttachObservers | main.py:277-291 | attaches graph, multigraph, update_count and path, in that order |
| Downloader.GraphPairsError | main.py:351-361 | comparing against the lone "graph" observer raises iff an own multigraph observer is named "graph" |
| Downloader.BuildTruth | main.py:339-358 | the ground-truth table carries one fresh "graph" observer and the built end RIBs, and that observer holds the graphs the bootstrap add-path calls build from empty graphs |
| Downloader.CheckAgainstGroundTruth | main.py:337-361 | a build error, or an own collector with peers that the ground truth lacks, ends the check; otherwise the peer diffs are those of the rebuilt table against the ground truth, and each own observer named "graph", in order, yields the undirected comparison of its pruned IPv4 graph with the ground truth's, or None when it is not a graph observer |
| Downloader.CompareWithTruth | main.py:361 | `compare` against a table whose single observer is the "graph" observer: raises iff an own multigraph observer is named "graph", and otherwise gives the peer diffs and one graph comparison per own observer named "graph" |
| Downloader.GraphsAfterIsRepeatAll | main.py:355-358 | an observer attached once to the ground-truth table receives each bootstrap add-path call once, so its graphs are those the calls build from empty graphs |
| Downloader.MatchTruth | rib_table.py:164-168 | against a single observer named "graph", `compare` pairs it with the own observers named "graph", in their order |

## Left out

- Downloading and caching: `CachedSession`, `download_urls` and its ThreadPoolExecutor (main.py:225-255) are I/O. Each URL is replaced by the records of its file.
- Temporary files and the `bgpdump` subprocess (rib_table.py:195-208, 269-275, 248, 373) are I/O. MRT decoding is done by an external program. A file is modelled as its `|`-separated records.
- Dump output: file paths, `strftime` names, JSON and CSV writing and `print` are I/O. A dump returns the values it would write.
- Floating point: the `paths_count/peers_count` ratio of the graph dump is left as the pair of integers. The percentages in the logs are not modelled.
- Rib.ParseMicros: `float(update[1])` is read as whole microseconds. Digits past the sixth decimal are rounded to the nearest microsecond by the source and truncated by the model. Signs, exponents, `inf` and `nan` are rejected, where `float` would accept them.
- Logging, argparse, the configs module and cProfile do not affect the computed state.
- The calendar (`datetime`, `timedelta`, `strptime`) is not part of this model. Times are integer seconds. The calendar fields used in archive names are the `Urls.Moment` datatype. Years below 1000 are padded to four digits, which `strftime` may not do.
- `set_urls`' pandas `files` index (main.py:166-222) is not built. Its effect on the processing order is taken as input: a sequence of update steps, assumed in ascending time, with collectors in name order.
- `compare_multigraphs` (observers/graph.py:290-301) is never called by the core. It is not part of this model.
- The debug logging of comparison results (observers/graph.py:205-214) is left out. `Graph.ASGraphObserver.Compare` returns the comparison instead.
- Observers.CompareWith: comparing a graph observer with a multigraph observer returns `Ok(None)`. The source would run the weighted comparison on the multigraph's IPv4 graph, and the model does not state what that finds.
- The order in which networkx keeps a graph's nodes is not part of the observer's state. `Graph.OrderAfter` computes it from the paths added, and only the as-written comparison `Graph.CompareListed` takes it, as a parameter. `_remove_path` (observers/graph.py:118-128) only removes edges, and networkx keeps both endpoints, so withdrawals and re-announcements leave the order as `Graph.OrderAfter` computes it over every path added. Only the pruning of isolates in `Graph.ASGraphObserver.Compare` (observers/graph.py:201) removes nodes and so can change the order. The model does not follow the order after a pruning.
- Graph.ASGraphObserver.Compare: it uses the comparison on undirected edges, `Graph.CompareWeightedGraphs`, not the code as written. The two differ only in the modified edges (see Findings).
- Graph.ASGraphObserver.Dump: the `multigraph_observer` default (observers/graph.py:104) is the typing expression `Optional[...]`, which is not None. The model's default is `None`, which takes the non-multigraph branch, where `self.as_graph_ipv4` raises AttributeError at once. With the source's default, AttributeError is raised only when the loop reaches an edge. The only graph observer built with the default is the ground-truth one, which is never dumped.
- Urls.RoundTrip: it holds only for collectors with no dot in their name, or of the form `route-views.X`. The bare "route-views" is shown by `Urls.BareRouteViews` to come back as "route-views.<type>".
- `set_urls` picks RouteViews collectors with `startswith("route-views")`, but the project classification uses "contains". `Schedule.CompareFlag` follows the former and `Schedule.ProjectOf` the latter.
- AsPath.ParseInt: Python's `int()` also accepts surrounding whitespace, underscores between digits and non-ASCII digits. The model accepts an optional sign followed by ASCII digits only.
- The `Observer` base class (observers/observer.py:45-67) only raises NotImplementedError. Attached observers are the closed datatype `Observers.Observer` of the four concrete classes. User-defined observers are not modelled.
- The log of hook calls kept by `Tables.RIBTable` is ghost. It exists for stating the contracts and is not in the source.
- `main.py`'s `__main__` block and `run` are a command-line driver that calls the modelled operations in turn.

## Findings

| source | as written | input that shows it | evidently intended | confidence | as-written member | corrected member |
|---|---|---|---|---|---|---|
| observers/graph.py:272-279 | modified edges are looked for only in `set(graph1.edges()) & set(graph2.edges())`, which matches oriented tuples, while networkx lists each edge from the endpoint that entered the graph first | graph1 built from the path `1 2` once (edge listed `(1, 2)`, weight 1), graph2 from the path `2 1` twice (edge listed `(2, 1)`, weight 2): nothing at all is reported | a shared edge is weight-checked whatever orientation each graph lists it in, as the docstring's "considering undirected edges" and the reversed lookup at lines 275-276 show | not executed | Graph.CompareListedMissesReversedEdge | Graph.CompareWeightedGraphs |
| main.py:209 | with both projects, a "route-views" collector at a RouteViews RIB time evaluates `self.ts_end % 8`, a `datetime` modulo an `int`, which raises TypeError | collectors `rrc00` and `route-views2`, end at midnight (a RIB time of both projects): the collector loop of `set_urls` raises TypeError | `self.ts_end.hour % 8 == 0`: with both projects, compare only at times when the RIS collectors also have a RIB file | not executed | Schedule.CompareFlag | Schedule.CompareFlagIntended |
