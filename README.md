# Money-muling detection engine: a verified model

This project models the backend detection engine of the Money-muling analyser.
The engine takes a table of transactions, each with an id, a sender, a receiver, an amount and a timestamp.
It folds the table into a directed account graph.
Three structural detectors then look for fraud rings:
- circular fund routing: cycles of 3 to 5 accounts;
- smurfing: fan-in or fan-out to 10 or more distinct counterparties within 72 hours;
- layered shell networks: paths of 5 to 8 accounts through at least 2 low-activity "shell" accounts.

The rings are concatenated, and every account a ring names gets a suspicion score.
The score is the capped sum of the pattern weights, plus the account's pattern list and the id of its last ring.
Finally the graph view, the summary counts and the JSON report are assembled.

Every score and risk in the engine is a multiple of 0.5.
The model keeps them as integer counts of halves (`Records.Halves`): a weight of 40 is `80` and the cap of 100 is `200`.
Timestamps are integer seconds, so the 72-hour window is `259200`.
Account ids and pattern names are strings; Python's string order is the lexicographic order on characters (`Text.Less`).

Modules, one per file:
- `Wrappers`: `Option` and `Result`.
- `Text`: string order, sorting, de-duplication, and the `{n:03d}` ring-id suffix.
- `Records`: transactions, rings and pattern names.
- `AccountGraph`: the graph and the edge-upsert loop.
- `CycleDetector`, `SmurfingDetector`, `ShellDetector`: the three detectors.
- `Scoring`: `calculate_scores`.
- `OutputBuilder`: `build_output_json`.
- `GraphEngine`: `run_detection`.

Each loop of the source is a method with loop invariants.
Each method is proved equal to a specification function, and the promised properties are lemmas about that function.
The shell detector's nested search shares mutable state with its caller (`detected_paths`, `rings`, `ring_counter`).
It is therefore the class `ShellDetector.ShellSearch`, whose methods update those fields.

## Model

| member | source | states |
|---|---|---|
| Text.SortSpec | backend/scoring.py:40 | `Sort` returns its input ordered by Python string order, as a permutation (same multiset) |
| Text.InsertSpec | backend/scoring.py:40 | inserting into a sorted list keeps it sorted and adds exactly the inserted string |
| Text.LessTotal | backend/scoring.py:40 | any two strings are ordered one way, the other, or equal |
| Text.LessTransitive | backend/scoring.py:40 | string order is transitive |
| Text.DistinctSpec | backend/detectors/smurfing_detector.py:36-40 | de-duplication lists each element once, keeps the element set, and its length is the number of distinct elements |
| Text.SortedDistinctSpec | backend/detectors/smurfing_detector.py:47 | `sorted(list(set))` is strictly increasing, has the same elements, and its length is the set's size |
| Text.StrictlySortedUnique | backend/scoring.py:40 | two strictly increasing lists with the same elements are equal, so `sorted(list(s))` depends only on `s` |
| Text.SortedList | backend/scoring.py:40 | listing a set in sorted order yields a strictly increasing list of exactly its elements |
| Text.DigitsRoundTrip | backend/detectors/cycle_detector.py:17 | the decimal digits of n read back as n |
| Text.Pad3RoundTrip | backend/detectors/cycle_detector.py:17 | the zero-padded `{n:03d}` text reads back as n and has at least 3 characters |
| Text.RingIdInjective | backend/detectors/cycle_detector.py:17 | two ring ids with the same prefix are equal only for equal counters |
| AccountGraph.BuildGraph | backend/graph_engine.py:34-42 | the edge-upsert loop returns the graph of the rows, with distinct nodes, distinct edges and an attribute for each edge |
| AccountGraph.GraphOfWellFormed | backend/graph_engine.py:34-42 | the graph of any rows is well formed |
| AccountGraph.GraphNodes | backend/graph_engine.py:36-44 | the node set is the union of all senders and receivers, and the node count is its size |
| AccountGraph.GraphEdges | backend/graph_engine.py:36-42 | there is exactly one edge per distinct (sender, receiver) pair |
| AccountGraph.LastWriteWins | backend/graph_engine.py:36-42 | an edge's amount and timestamp are those of the last row with that pair |
| AccountGraph.SuccInSpec | backend/detectors/shell_detector.py:59 | a node's neighbours are listed once each and are exactly the targets of its out-edges |
| AccountGraph.PredInSpec | backend/detectors/shell_detector.py:20 | a node's predecessors are listed once each and are exactly the sources of its in-edges |
| AccountGraph.Degrees | backend/detectors/shell_detector.py:20 | in- and out-degree count the distinct in- and out-edges of the node |
| AccountGraph.EdgeListSpec | backend/graph_engine.py:78-80 | the edge iteration lists every edge of the graph exactly once |
| CycleDetector.DetectCycles | backend/detectors/cycle_detector.py:10-29 | the loop returns one ring per enumerated cycle of length 3 to 5, in order, numbered 1, 2, ...; each has 3 to 5 members, pattern `cycle` and risk 89, 92 or 95 |
| CycleDetector.KeptSpec | backend/detectors/cycle_detector.py:13-16 | the kept cycles are exactly the enumerated cycles whose length is between 3 and 5 |
| CycleDetector.KeptCount | backend/detectors/cycle_detector.py:14-16 | the number of rings equals the number of enumerated cycles with length in [3, 5] |
| CycleDetector.CycleRingsShape | backend/detectors/cycle_detector.py:14-24 | every cycle ring has 3 to 5 members, pattern `cycle` and risk 80 + 3 × length (89, 92 or 95) |
| CycleDetector.CycleRingIds | backend/detectors/cycle_detector.py:17-27 | different cycle rings have different ids |
| CycleDetector.CycleRingsAreCycles | backend/detectors/cycle_detector.py:13-21 | when the enumeration yields elementary cycles of the graph, each ring is a closed directed walk of 3 to 5 distinct accounts |
| ShellDetector.TxCountEdges | backend/detectors/shell_detector.py:18-21 | a node's count is its number of distinct in-edges plus distinct out-edges |
| ShellDetector.ShellsAmong | backend/detectors/shell_detector.py:38-42 | the filter keeps exactly the interior accounts whose count is in [2, 3] |
| ShellDetector.SourcesSpec | backend/detectors/shell_detector.py:68 | the searches start from the first min(50, node count) nodes, in node order, each once |
| ShellDetector.EmitShape | backend/detectors/shell_detector.py:33-61 | every path reported below a path p extends p, repeats no node, follows directed edges, has 5 to 8 nodes and at least 2 shell interior nodes |
| ShellDetector.KidsShape | backend/detectors/shell_detector.py:58-61 | every path reported under the neighbour loop extends p by one of the neighbours and is a reportable shell path |
| ShellDetector.EmitPrefixFree | backend/detectors/shell_detector.py:45-58 | no path reported below p is a prefix of another: none is reported twice, and none is extended after being reported |
| ShellDetector.KidsPrefixFree | backend/detectors/shell_detector.py:58-61 | the paths reported under distinct neighbours form one prefix-free list |
| ShellDetector.ShellPathsSpec | backend/detectors/shell_detector.py:68-74 | every reported path is a shell path starting at one of the sources; with distinct sources the whole list is prefix-free |
| ShellDetector.KidsContain | backend/detectors/shell_detector.py:58-61 | every path reported below p + [v] is also reported by the neighbour loop at p, when v is one of the neighbours and not on p |
| ShellDetector.EmitComplete | backend/detectors/shell_detector.py:33-61 | a simple path along edges of at most 8 nodes that extends p and qualifies, with no qualifying prefix at least as long as p, is reported by the search from p |
| ShellDetector.ShellPathsComplete | backend/detectors/shell_detector.py:68-74 | a simple path along edges of at most 8 nodes that starts at one of the sources and qualifies, with no shorter qualifying prefix, is among the reported paths |
| ShellDetector.ShellRingsFrom | backend/detectors/shell_detector.py:48-55 | over prefix-free shell paths, ring k is `RING_SHELL_` k+1, pattern `layered_shell`, with risk 75 + 2.5 × (shell count), between 80 and 90 |
| ShellDetector.ShellRingsSpec | backend/detectors/shell_detector.py:10-76 | the intended detector's rings are numbered 1, 2, ... in order found; each is a simple directed path of 5 to 8 accounts from one of the first 50 nodes, with at least 2 shell accounts inside and risk 75 + 2.5 per shell account; no ring's path is a prefix of another's |
| ShellDetector.ShellRingsComplete | backend/detectors/shell_detector.py:10-76 | conversely, every such path from one of the first 50 nodes with no shorter qualifying prefix is the path of some ring, ring k+1 at position k, with the risk its shell count gives |
| ShellDetector.ShellSearch.constructor | backend/detectors/shell_detector.py:10-24 | the search starts with the count map of the graph, no detected path, no ring and counter 1 |
| ShellDetector.ShellSearch.FindShellPaths | backend/detectors/shell_detector.py:27-65 | the call reports exactly `Emit` of the extended path. It records each as detected with its ring numbered by the counter, and returns the counter that follows the last ring. The explored path stays simple and along edges, and the counter is not updated when the path itself is reported |
| ShellDetector.ShellSearch.Report | backend/detectors/shell_detector.py:45-55 | the path joins the detected set and its ring is appended, numbered by the current counter, with risk 75 + 2.5 × shell count |
| ShellDetector.ShellSearch.ExploreNeighbours | backend/detectors/shell_detector.py:58-63 | the neighbour loop reports exactly the paths of `ExploreKids` over the neighbours in adjacency order, carrying the counter through |
| ShellDetector.DetectShells | backend/detectors/shell_detector.py:68-76 | the intended detector returns `ShellRingsOf(g)`, the rings of all paths found from the first 50 nodes with the counter carried across sources |
| ShellDetector.LineReported | backend/detectors/shell_detector.py:12-55 | on the line a→b→c→d→e of distinct accounts, the intended detector reports exactly one ring: the whole line as `RING_SHELL_001` |
| ShellDetector.ChainCounts | backend/detectors/shell_detector.py:18-21 | on that line the three interior accounts each have count 2, so all are shell accounts |
| ShellDetector.LineShells | backend/detectors/shell_detector.py:38-42 | when b, c, d are shell accounts, the shell nodes of [a, b, c, d, e] are [b, c, d] |
| ShellDetector.ShellSearch.FindShellPathsAsWritten | backend/detectors/shell_detector.py:27-65 | as written, every call ends in `UnboundLocalError`, after possibly recording its path as detected; no ring is appended and the counter is unchanged |
| ShellDetector.DetectShellsAsWritten | backend/detectors/shell_detector.py:68-76 | as written, the bare `except` swallows each source's error and the detector returns no ring for any graph |
| SmurfingDetector.GroupByFocal | backend/detectors/smurfing_detector.py:21-30 | the grouping loop builds the per-account lists and their key order (first appearance) |
| SmurfingDetector.GroupingSpec | backend/detectors/smurfing_detector.py:21-30 | each account appears once as a key, in first-appearance order, and its list holds its own transactions in input order |
| SmurfingDetector.ContactsOfSorted | backend/detectors/smurfing_detector.py:18-30 | after the time sort, each account's list is in time order and its times are those of input rows |
| SmurfingDetector.ScanWindow | backend/detectors/smurfing_detector.py:35-42 | the inner loop with its `break` collects exactly the distinct counterparties of the window from start i |
| SmurfingDetector.WindowEndSpec | backend/detectors/smurfing_detector.py:38-42 | the window runs to the first position more than 72 h after the start: everything before it is within 72 h, everything after it beyond |
| SmurfingDetector.WindowBounds | backend/detectors/smurfing_detector.py:35-42 | a window is a contiguous run whose times satisfy start ≤ t ≤ start + 72 h, and it includes every later contact within 72 h |
| SmurfingDetector.FirstStartSpec | backend/detectors/smurfing_detector.py:34-53 | the chosen start qualifies and no earlier start does; when none is chosen, no start qualifies |
| SmurfingDetector.FirstWindowRing | backend/detectors/smurfing_detector.py:34-53 | the scan over start positions returns the account's ring from the first qualifying window, or none |
| SmurfingDetector.AccountRingSpec | backend/detectors/smurfing_detector.py:44-52 | an account gets a ring iff some window has 10 or more distinct counterparties. The ring is built from the earliest such window, with the given number and the pass's pattern. Its risk is 80 + 0.5 × count, at least 85, and its members are laid out by direction |
| SmurfingDetector.SmurfRingSpec | backend/detectors/smurfing_detector.py:45-50 | fan-in members are the sorted distinct senders followed by the receiver; fan-out members are the sender followed by the sorted distinct receivers |
| SmurfingDetector.SmurfRingFromSet | backend/detectors/smurfing_detector.py:47 | the ring built from the collected set equals the ring of the window |
| SmurfingDetector.ScanPass | backend/detectors/smurfing_detector.py:32-53 | one pass appends `PassRings` to the rings so far and advances the counter by the number appended |
| SmurfingDetector.DetectSmurfing | backend/detectors/smurfing_detector.py:4-90 | the detector returns `SmurfRings` of the time-sorted rows: fan-in rings, then fan-out rings |
| SmurfingDetector.PassRingsSound | backend/detectors/smurfing_detector.py:32-53 | ring k of a pass belongs to one of the pass's accounts and is that account's window ring, numbered first + k |
| SmurfingDetector.PassRingsDistinct | backend/detectors/smurfing_detector.py:53 | no two rings of a pass share their focal account |
| SmurfingDetector.PassRingsComplete | backend/detectors/smurfing_detector.py:32-53 | every account of the pass with a qualifying window gets a ring |
| SmurfingDetector.PassPerAccount | backend/detectors/smurfing_detector.py:32-53 | at most one ring per account, and one for every account with a qualifying window |
| SmurfingDetector.SmurfRingsOnePerAccount | backend/detectors/smurfing_detector.py:53 | at most one fan-in ring per receiver and one fan-out ring per sender |
| SmurfingDetector.SmurfRingsComplete | backend/detectors/smurfing_detector.py:67-88 | if any window of an account reaches 10 distinct counterparties, a ring for that account is emitted |
| SmurfingDetector.TwoPassShape | backend/detectors/smurfing_detector.py:13-90 | with the counter carried from the fan-in pass into the fan-out pass, ring k is numbered k + 1 with the prefix and pattern of its pass, at least 11 members and risk ≥ 85 |
| SmurfingDetector.SmurfRingsShape | backend/detectors/smurfing_detector.py:13-90 | all fan-in rings precede all fan-out rings, and the numbers run 1..k over the combined list. Every ring has at least 11 members and risk 80 + 0.5 × (members − 1) ≥ 85 |
| SmurfingDetector.RingWindowBounds | backend/detectors/smurfing_detector.py:35-42 | the transactions behind a ring lie within 72 h of the window start, inclusive |
| Scoring.WeightRange | backend/scoring.py:14-19 | weights run from 10 to 40, and every unknown pattern gets 10 |
| Scoring.MembersSpec | backend/scoring.py:21-24 | the accounts scored are exactly those named by some ring |
| Scoring.RawScoreBounds | backend/scoring.py:21-28 | the uncapped score lies between 10 and 40 per occurrence of the account in ring member lists |
| Scoring.RawScoreAppend | backend/scoring.py:21-28 | the uncapped score over two ring lists is the sum of their scores |
| Scoring.ScoreMonotone | backend/scoring.py:28-33 | appending rings never lowers an account's capped score |
| Scoring.PatternSetSpec | backend/scoring.py:29 | an account's pattern set holds exactly the patterns of the rings that name it |
| Scoring.PatternListSpec | backend/scoring.py:29 | the pattern list has the same elements as the pattern set |
| Scoring.LastRingIdSpec | backend/scoring.py:30 | an account has a ring id iff some ring names it, and the id is that of the last ring naming it |
| Scoring.InsertByScorePerm | backend/scoring.py:46-48 | inserting an entry by score adds exactly that entry |
| Scoring.InsertByScoreOrdered | backend/scoring.py:46-48 | inserting into a list ordered by score, highest first, keeps it so ordered |
| Scoring.InsertByScoreStable | backend/scoring.py:46-48 | among entries of any one score, insertion keeps the order of the list with the new entry in front |
| Scoring.SortByScoreSpec | backend/scoring.py:46-48 | the sort orders by score, highest first, is a permutation, and keeps the original order among equal scores |
| Scoring.ScoredSpec | backend/scoring.py:33-43 | an account's entry has score min(raw, 100), between 10 and 100. Its patterns are strictly sorted and exactly its pattern set, and its ring id is that of its last ring |
| Scoring.UnsortedSpec | backend/scoring.py:33-43 | before sorting, the entries are one per scored account, in first-appearance order, with no repeats |
| Scoring.UnsortedEntries | backend/scoring.py:33-43 | each entry before sorting is the entry of an account some ring names |
| Scoring.ScoresEntries | backend/scoring.py:33-50 | each returned entry is the entry of an account some ring names, and every unsorted entry is returned |
| Scoring.ScoresIdsDistinct | backend/scoring.py:33-50 | no account is returned twice |
| Scoring.ScoresIdsCover | backend/scoring.py:33-50 | the returned accounts are exactly those named by some ring |
| Scoring.ScoresSpec | backend/scoring.py:33-50 | the result lists each ringed account once with its entry, highest score first, ties in first-appearance order |
| Scoring.Aggregate | backend/scoring.py:21-30 | after the loop over rings, the three maps and the key order hold, for every account, its raw score, pattern set and last ring id |
| Scoring.AggregateRing | backend/scoring.py:26-30 | one ring's members add its weight, pattern and id to their entries, keeping the maps consistent with the rings seen so far |
| Scoring.TallyStep | backend/scoring.py:27-30 | one member's update keeps all three maps and the key order consistent with the rings seen so far |
| Scoring.EntryOf | backend/scoring.py:35-41 | the k-th key's capped score, patterns and ring id in the maps give the k-th unsorted entry |
| Scoring.CalculateScores | backend/scoring.py:3-50 | `calculate_scores` returns `Scores(rings)`, whatever the graph argument |
| OutputBuilder.AsFloatLossless | backend/output_builder.py:26 | `float` of a score loses nothing: it maps back to the same halves |
| OutputBuilder.AccountEntryLossless | backend/output_builder.py:22-30 | an account entry holds every field of the scored account it was copied from |
| OutputBuilder.RingEntryLossless | backend/output_builder.py:33-41 | a ring entry holds every field of the ring it was copied from |
| OutputBuilder.SummaryOutSpec | backend/output_builder.py:9-18 | the summary has exactly the four keys, each copied when present. A missing count becomes 0 and a missing time 0.0, and other keys are dropped |
| OutputBuilder.BuildOutputJson | backend/output_builder.py:6-43 | both lists keep the length and order of the input, each entry copying its input's fields, and the summary is restricted as above |
| GraphEngine.LookupRing | backend/graph_engine.py:61-63 | one ring's members overwrite their lookup entry with its id, so each key maps to the last ring naming it |
| GraphEngine.RingLookup | backend/graph_engine.py:60-63 | `ring_lookup` has exactly the ringed accounts as keys, each mapped to the id of the last ring naming it |
| GraphEngine.LookupAgrees | backend/graph_engine.py:60-74 | `ring_lookup.get(node)` equals the account's ring id from scoring, `None` when no ring names it |
| GraphEngine.FirstScoreSpec | backend/graph_engine.py:69-72 | the first matching entry's score is the account's score; it is 0 when the account is not scored |
| GraphEngine.BuildNodeViews | backend/graph_engine.py:65-76 | the node loop produces one view per node, in node order |
| GraphEngine.NodeEntryAgrees | backend/graph_engine.py:58-76 | a node's view has its scored value (else 0), suspicious iff it is scored, and its last ring id |
| GraphEngine.NodeOfSpec | backend/graph_engine.py:65-76 | a scored account's view carries its entry's score and ring id and is suspicious; an unscored one has score 0, is not suspicious and has no ring |
| GraphEngine.EdgesViewSpec | backend/graph_engine.py:78-80 | the edge view lists each edge of the graph exactly once and nothing else |
| GraphEngine.RunDetection | backend/graph_engine.py:11-94 | the run fails with the schema-mismatch error exactly when a required column is missing, before the graph is built. Otherwise the rings are cycle ++ smurfing ++ shell and the accounts are their scores. Each graph node appears exactly once in node order with its view, and the edges and summary counts follow |
| GraphEngine.SummarySpec | backend/graph_engine.py:44-92 | the counts are the distinct accounts among the rows, the distinct ringed accounts, and the sum of the three detectors' ring counts |

## Left out

- CSV parsing (`pd.read_csv`, `pd.to_datetime`) is not modelled. A run starts from the file's column names and its rows, already typed, with integer timestamps in seconds.
- `nx.simple_cycles` is an input: its order of enumeration is library behaviour. `CycleDetector.CycleRingsAreCycles` requires that it yields elementary cycles.
- The order in which networkx lists a node's neighbours and the graph's edges is modelled as first-insertion order (the adjacency-dict order). `GraphEngine.EdgesViewSpec` states what holds for any order: each edge exactly once.
- The pandas time sort (`sort_values`, not stable) is an input `byTime`. `GraphEngine.RunDetection` and `SmurfingDetector.DetectSmurfing` require it to be a time-sorted permutation of the rows; any such permutation is allowed.
- `list.sort` in `calculate_scores` is kept as its result, the stable descending insertion sort `Scoring.SortByScore`, not as an in-place algorithm.
- Transaction amounts are stored on edges and copied into grouped lists; no decision reads them, so the model carries them only on edges.
- The HTTP endpoints, CORS setup, wall-clock `processing_time_seconds` and the front end are not part of this model. The processing time enters `OutputBuilder.BuildOutputJson` only as a summary value.
- Floating point is replaced by exact halves. `round(·, 2)` is the identity on every value the engine produces, and `OutputBuilder.AsFloatLossless` shows the conversion loses nothing.
- The shell detector's "skip a source on failure" path (`try`/`except`) does not occur in the intended search, which never fails. It is modelled only in `ShellDetector.DetectShellsAsWritten`, where every source fails.
- The per-ring and per-member loop bodies are separate methods (`Scoring.AggregateRing`, `GraphEngine.LookupRing`, `ShellDetector.ShellSearch.Report`, `ShellDetector.ShellSearch.ExploreNeighbours`). Only the structure changes; the updates and their order are the source's.
- Smurfing numbering: both passes share one counter. The fan-out pass does not restart it, so fan-out numbers continue after fan-in.
- `run_detection` calls the shell detector as evidently intended (`ShellDetector.DetectShells`); see Findings for the version as written.

## Findings

| source | as written | input that shows it | evidently intended | confidence | as-written member | corrected member |
|---|---|---|---|---|---|---|
| backend/detectors/shell_detector.py:49-65 | `ring_counter = result` inside the nested `find_shell_paths` makes `ring_counter` a local of that function. The ring literal at line 49 and the final `return` at line 65 read it before any assignment, so every call raises `UnboundLocalError`, the bare `except` at lines 73-74 swallows it, and `detect_shells` returns `[]` for every graph | the line a→b→c→d→e of five distinct accounts, whose interior b, c, d each have two transactions: the path qualifies, yet no ring is returned | the counter is shared with `detect_shells` (a `nonlocal` counter): each qualifying path becomes `RING_SHELL_nnn`, numbered in the order found | not executed | ShellDetector.DetectShellsAsWritten | ShellDetector.LineReported |
