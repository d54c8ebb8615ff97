# Verified model of a Monero network simulator's core

The simulator drives a network of Monero nodes. Its mining agents pace themselves with a synthetic
difficulty; a topology file describes who is connected to whom; agents share state through locked
files; scripts build topologies and schedules and measure the runs. This project models the parts
of that code whose correctness is an argument rather than a reading, and proves it.

How the model is laid out:

- **Difficulty** (`DifficultyRecurrence`, `DifficultyReplay`, `SeenChain`, `DifficultyRuns`,
  `StaleReplay`, `RescaledWait`, `Miner`). A windowed recurrence over the block timestamps of a chain is the
  reference. The miner keeps two caches, prunes them, resets them after a reorg it notices, and may
  fail to fetch any header at any moment; over every run of polls, with any change of the chain
  between them, the replay is proved to agree with the recurrence on the chain as the miner has
  seen it. `SeenChain` says which chain that is. `Miner.AutonomousMiner` is the object with its
  fields, and includes the waiting loop, whose remaining time is stretched or shrunk whenever the
  multiplier moves; `RescaledWait` has the arithmetic of that wait.
- **GML** (`GmlSyntax`, `GmlLayout`, `GmlValues`, `GmlEmitter`, `GmlLines`, `GmlRoundTrip`,
  `GmlParsed`, `GmlMeaning`, `GmlParser`). `GmlSyntax` says what a text means: tokens on the characters, parse
  functions on the stream of tokens. `GmlParser` is the lexer and the parser with their positions, advanced in
  place, and is proved against it. `GmlEmitter` is the writer, which escapes nothing and leaves
  some values bare. Text parsed back from the emitted file is proved to be the graph that was
  written with its bandwidths converted, in any attribute order; and every graph the reader returns
  can be written, as far as its values allow. `GmlMeaning` says in terms of the text alone what
  single values become: addresses, regions, escapes, numbers, losses and written lines.
- **Shortest paths** (`ShortestPaths`): Dijkstra with a lazy-deletion heap against walks and their
  weights.
- **Edit distance** (`EditDistance`, `LineSimilarity`): the two-row program against the recursive
  distance, that distance against scripts of single edits, and the score it gives two log lines.
- **Shared files** (`SharedFile`, `SharedFileRuns`): any number of processes that lock, read, write a
  shared temp file and rename it, with calls that fail at any point before the rename and readers
  that take no lock.
- **Topology** (`AsGraphs`, `SortedLists`, `TopologyExtraction`, `TopologyRenumbering`,
  `TopologyPipeline`): loading, components, bounded expansion, self-loops, renumbering, latencies,
  and what they give Dijkstra.
- **Runs and schedules** (`BlockRate`, `IntervalJoin`, `SpawnSchedule`, `GroupExpansion`,
  `UpgradeWaterfall`).

Where the code does not keep a promise on every input, the model keeps the code and states when the
promise holds:

- A reorg that leaves the chain at least as long as the last replayed height, or cuts it back to
  START or below, is not noticed. The miner then works on a splice: timestamps it has cached, and
  heights too old to be read again, from the old chain, the rest from the new one. A completed poll
  returns the recurrence on that splice, so it is exact exactly when the splice and the daemon's
  chain have the same multiplier at that height (`CompletePollIsSpliced`, `SameLengthReorg`;
  `UnnoticedReorgIsStale` is a concrete case where they differ). When every change of the chain is
  an extension or is noticed, the splice is the chain itself (`CompletePollIsExact`).
- The miner's own description defines its multiplier as the recurrence at the next height; the code
  returns 1.0 while the top is at START or below, which differs from the recurrence at START alone,
  and only when the first window did not take its target time (`WarmupIsExact`); and it repeats the
  previous multiplier when a window's observed span is not positive. The model follows the code
  (`DifficultyRecurrence.D`).
- A miner whose poll fails part way keeps mining on a multiplier of an earlier height, or on 1.0
  (`HeldMultiplier`).
- A value that contains a quote or ends in a backslash is not read back as it was written: a text
  survives the quotes exactly when `QuotedSafe` holds of it (`QuotedExact`), and a bare value
  survives exactly when it is one word (`BareExact`).
- The interval join stops walking back after an interval that opened more than a day ago, and so can
  miss one (`JoinIsNaiveScan` gives the exact condition, `JoinCanMiss` a case).
- A second staggered stop among a group's daemon fields advances the shared upgrade offset as well,
  and a staggered restart listed after the stop counts its own group twice (`Waterfall`,
  `DriftingScenario`, `StaggeredRestart`).
- The batched spawn loop never ends when its batches cannot hold everybody, for instance with an
  initial size of 0; with a growth of at least 1 it ends exactly when there is nobody to place or
  both size parameters are at least 1 (`EndsIffRoom`).

Real numbers stand for the floats of the difficulty, the waiting and the similarity scores.
Character classes and number formatting of the host language are parameters of the GML model
(`GmlSyntax.Host`), constrained by the predicate `Sane`.

## Model

| member | source | states |
|---|---|---|
| DifficultyRecurrence.DInRange | agents/autonomous_miner.py:371 | every multiplier of the series lies between the two clamp bounds |
| DifficultyRecurrence.DMeaning | agents/autonomous_miner.py:357-371 | the multiplier is 1 up to START, unchanged after a window that took no measurable time, and otherwise 120 times the summed multipliers of the window over the time it took, or the clamp bound that this exceeds |
| DifficultyRecurrence.NextIsClampedRate | agents/autonomous_miner.py:365-371 | the mean multiplier of the window times expected over observed span is the windowed work at the target pace over the time it took, clamped |
| DifficultyRecurrence.DOfSameWindows | agents/autonomous_miner.py:364-371 | two chains that agree on the window ends up to a height have the same multiplier there, whatever lies between |
| DifficultyRecurrence.DOfExtension | agents/autonomous_miner.py:292-303 | a multiplier depends on its own past alone: extending the chain does not change it |
| DifficultyRecurrence.SumOfExtension | agents/autonomous_miner.py:369-370 | the same for the running sums |
| DifficultyRecurrence.DReversesOrder | agents/autonomous_miner.py:364-371 | a chain whose windowed spans are positive and nowhere longer has multipliers nowhere smaller, through the clamp and the running mean |
| DifficultyRecurrence.SumReversesOrder | agents/autonomous_miner.py:369-370 | the running sums are ordered the same way and never negative |
| DifficultyRecurrence.WindowTime | agents/autonomous_miner.py:300-318 | blocks paced by hashrates between two bounds take, over any stretch, a total time between the summed multipliers over those bounds |
| DifficultyRecurrence.MultiplierTracksWindow | agents/autonomous_miner.py:364-371 | past START the multiplier lies between the least and the greatest hashrate of its window: a transient is gone after one window |
| DifficultyRecurrence.ConstantHashrateSettles | agents/autonomous_miner.py:300-318 | after one whole window at one hashrate the multiplier is that hashrate, and a block then takes the target time |
| DifficultyReplay.FaithfulOnExtension | agents/autonomous_miner.py:313-318 | caches that agree with a chain agree with every extension of it |
| DifficultyReplay.LookupSumIsSum | agents/autonomous_miner.py:354-356 | the sum of cached multipliers is the recurrence's sum when the window is covered |
| DifficultyReplay.NextMultiplierIsD | agents/autonomous_miner.py:364-372 | one replay step from true caches yields the recurrence's next multiplier, including the unchanged value when the observed span is not positive |
| DifficultyReplay.ReplayIsTrue | agents/autonomous_miner.py:357-374 | a replay over several heights, whichever headers fail, caches only true values, and covers every height if it completes |
| DifficultyReplay.ReplayCompletes | agents/autonomous_miner.py:347-374 | a replay completes exactly when each window end it reads is cached or served |
| DifficultyReplay.ReplayIgnores | agents/autonomous_miner.py:347-352 | a cached timestamp is never fetched again: daemons that differ only there give the same replay |
| DifficultyReplay.ReplayHolds | agents/autonomous_miner.py:347-374 | a replay only adds to the caches, entries for its own heights alone, with both window ends of each |
| SeenChain.SpliceKeepsSeries | agents/autonomous_miner.py:347-372 | splicing another chain behind the cached timestamps changes no multiplier already stored |
| DifficultyRuns.PrunedIsSmall | agents/autonomous_miner.py:376-382 | the timestamp cache is bounded by a few windows after a prune |
| DifficultyRuns.PrunedIsFaithful | agents/autonomous_miner.py:376-382 | pruning keeps everything that later polls read, so the pruned caches still agree with the chain |
| SeenChain.SpliceIsFaithful | agents/autonomous_miner.py:336-352 | whatever chain the daemon turns to, the caches are true of the splice of the old chain and the new one |
| SeenChain.AdvanceReadsSplice | agents/autonomous_miner.py:347-372 | and a replay from them reads nothing but that splice |
| SeenChain.AdvanceIsRooted | agents/autonomous_miner.py:357-382 | every window that went into a stored multiplier stays cached, or is older than any window still to be read, through failures and prunes |
| DifficultyRuns.CompleteAdvance | agents/autonomous_miner.py:357-385 | a completed replay answers the multiplier of the next height and leaves small, true caches |
| DifficultyRuns.HeldAdvance | agents/autonomous_miner.py:347-363 | a replay that stops at a missing header answers the multiplier after the last complete replay, or 1.0, and keeps the true values it gained |
| DifficultyRuns.AdvanceIsFaithful | agents/autonomous_miner.py:357-385 | either way the caches agree with the chain, which may reach beyond the replayed top |
| DifficultyRuns.StepIsFaithful | agents/autonomous_miner.py:284-385 | one whole poll, with every early return and any new chain, keeps the caches true of the chain as seen and answers the multiplier of that chain if it completes |
| DifficultyRuns.RunIsFaithful | agents/autonomous_miner.py:284-385 | after any run of polls, with any reorgs between them, failures and prunes, the caches agree with the chain as seen |
| DifficultyRuns.CompletePollIsSpliced | agents/autonomous_miner.py:284-385 | after any run a poll that completes returns the recurrence on the chain as seen; it is the daemon's multiplier exactly when the two chains share it, and they do when they agree on the window ends |
| DifficultyRuns.SameLengthReorg | agents/autonomous_miner.py:339-374 | a chain of the length replayed last needs no header: the poll completes and repeats the multiplier of the chain it replaced, right exactly when both chains share it |
| DifficultyRuns.CompletePollIsExact | agents/autonomous_miner.py:284-318 | when every change of the chain is an extension or is noticed, a completed poll returns exactly the plain recurrence on the current chain |
| DifficultyRuns.PollCompletes | agents/autonomous_miner.py:329-374 | a poll completes exactly when it is past START and each window end still to be read is cached or served |
| DifficultyRuns.MinersAgree | agents/autonomous_miner.py:313-315 | two miners with different histories that complete a poll on one chain return the same multiplier |
| DifficultyRuns.HeldMultiplier | agents/autonomous_miner.py:329-363 | which multiplier each poll that does not complete returns, after any run: 1.0, or that of the last height it knew on the chain as seen |
| DifficultyRuns.WarmupIsExact | agents/autonomous_miner.py:335-337 | the 1.0 returned up to START is the recurrence exactly below START, or when the first corrected multiplier is 1.0; with clamp bounds on both sides of 1, when the first window took its target time or no measurable time |
| StaleReplay.UnnoticedReorgIsStale | agents/autonomous_miner.py:339-345 | a concrete run in which a rewritten chain of the same length is not noticed and the returned multiplier is wrong |
| RescaledWait.ReplayInClamp | agents/autonomous_miner.py:364-374 | a replay caches only multipliers inside the clamp, true or not |
| RescaledWait.StepInClamp | agents/autonomous_miner.py:284-385 | so every poll returns a multiplier inside the clamp, even after a reorg nobody noticed |
| RescaledWait.SliceConserves | agents/autonomous_miner.py:607-612 | sleeping one slice moves work from remaining to done and keeps the total |
| RescaledWait.RescaleConserves | agents/autonomous_miner.py:613-618 | rescaling the remaining time keeps the remaining work |
| RescaledWait.SliceProgress | agents/autonomous_miner.py:607-612 | each full slice takes at least a fixed amount of work off, though the remaining time may grow later |
| RescaledWait.WithinStep | agents/autonomous_miner.py:603-618 | so a whole number that bounds the slices left falls by one at each full slice |
| RescaledWait.FewFromWithin | agents/autonomous_miner.py:603-618 | and the slices taken are at most the total work times the upper clamp over 30 seconds, rounded up |
| RescaledWait.BaseTimeMeaning | agents/autonomous_miner.py:424-431 | the base time times the weight in percent is 12000 s: twice the weight, half the time; a weight that is not positive counts as one percent |
| RescaledWait.UnderwayByOne | agents/autonomous_miner.py:603-618 | one more slice keeps all that is known of a wait: its books, the time slept, the polls made and the multipliers followed |
| Miner.InterruptibleSleep | agents/base_agent.py:484-492 | sleeps one second, or what is left, for each check that finds the agent running, and nothing after one that does not; the whole duration if it still runs at the end |
| Miner.RescaleIfMoved | agents/autonomous_miner.py:613-618 | takes the new multiplier over exactly when it is more than one percent above or below the old one, and keeps the remaining work either way |
| Miner.AutonomousMiner.Ts | agents/autonomous_miner.py:347-352 | a timestamp is taken from the cache or fetched and then cached; a failed fetch leaves the cache alone |
| Miner.AutonomousMiner.ReplayOne | agents/autonomous_miner.py:357-374 | replays one height in place, as the specification does, up to the point of failure |
| Miner.AutonomousMiner.SumOfWindow | agents/autonomous_miner.py:369 | the loop over the window is the cached sum |
| Miner.AutonomousMiner.Keep | agents/autonomous_miner.py:376-382 | prunes both caches in place: nothing while at most four windows of timestamps are held, else exactly the heights more than two windows and two blocks below the top |
| Miner.AutonomousMiner.AdvanceTo | agents/autonomous_miner.py:357-385 | the replay loop, its failure exits and the prune give the specified caches and multiplier |
| Miner.AutonomousMiner.GetDaaMultiplierInner | agents/autonomous_miner.py:284-385 | the poll over the fields is the specified step; with a window of 0 or less it answers 1.0 and touches no cache |
| Miner.AutonomousMiner.GetDaaMultiplier | agents/autonomous_miner.py:279-282 | the same, and the returned multiplier is remembered; answers and caches stay inside the clamp |
| Miner.AutonomousMiner.CalculateNextBlockTime | agents/autonomous_miner.py:387-489 | the wait times the weight in percent is 100 times the draw times 120 s times the multiplier just remembered; a weight that is not positive counts as one percent; without a window that multiplier is 1.0 |
| Miner.AutonomousMiner.WaitSlice | agents/autonomous_miner.py:607-618 | one pass of the wait loop keeps the conserved total and lowers the rank; it sleeps 30 s unless it is the last, and goes on at the multiplier of the poll it made if that moved |
| Miner.AutonomousMiner.WaitOut | agents/autonomous_miner.py:603-620 | the wait ends with all its work done if the agent still runs; the multipliers it slept at are those of its own polls, in order; nothing is slept once the agent is stopped |
| Miner.AutonomousMiner.Attempt | agents/autonomous_miner.py:592-620 | sampling a wait and sleeping it out does the work the weight asks for, in between the clamp bounds times that work |
| Miner.AutonomousMiner.RunIteration | agents/autonomous_miner.py:574-646 | an idle miner pauses a minute; an active one is given draw times 120 s over its share of the blocks as work, does exactly that in 30 s slices if it is not stopped, within the clamp bounds times that work, following the multipliers of its polls, and pauses 0.1 s, or 0 when stopped |
| EditDistance.LevSymmetric | attic/log_processor.py:132-133 | the distance is symmetric, so swapping the arguments is harmless |
| EditDistance.LevBounds | attic/log_processor.py:161-179 | it lies between the difference of the lengths and the greater length |
| EditDistance.LevZeroIffEqual | attic/log_processor.py:121-148 | it is zero exactly for equal strings |
| EditDistance.LevTriangle | attic/log_processor.py:121-148 | triangle inequality |
| EditDistance.LevOfOneEdit | attic/log_processor.py:142-145 | one insertion, deletion or substitution changes a string by at most one |
| EditDistance.NoScriptIsShorter | attic/log_processor.py:121-131 | no script of single edits between two strings is shorter than their distance |
| EditDistance.SomeScriptReaches | attic/log_processor.py:121-131 | and some script has exactly that length |
| EditDistance.NextRow | attic/log_processor.py:139-146 | the inner loop turns the row of a prefix into the row of the next longer prefix |
| EditDistance.LevenshteinDistance | attic/log_processor.py:121-148 | the two-row program, with its swap, computes the edit distance of all strings |
| LineSimilarity.SimilarityLaws | attic/log_processor.py:161-179 | the score lies in [0, 1], is 1 exactly for equal normalized lines, and is symmetric |
| LineSimilarity.SimilarityIsScore | attic/log_processor.py:161-179 | the similarity is that score |
| LineSimilarity.ZeroScore | attic/log_processor.py:161-179 | different lines score 0 exactly when their distance is the greater length |
| LineSimilarity.LineMatcher.NormalizeLine | attic/log_processor.py:91-119 | the cache never changes the answer, and gains exactly the line asked for |
| LineSimilarity.LineMatcher.CalculateSimilarity | attic/log_processor.py:150-179 | the score through the cache: 1 for equal normalized lines, 0 against an empty one, and otherwise what it lacks of 1 is the edit distance over the greater length |
| ShortestPaths.HeapPop | attic/assess_internetness.py:210 | removes one least entry |
| ShortestPaths.InitialLabels | attic/assess_internetness.py:205-206 | every node has an infinite label but the start |
| ShortestPaths.DropStale | attic/assess_internetness.py:211-212 | a stale entry may be dropped without harm |
| ShortestPaths.TakeEdge | attic/assess_internetness.py:213-217 | improving one target keeps what the search knows |
| ShortestPaths.ScanEdges | attic/assess_internetness.py:213-217 | the scan of a node's edges makes them all relaxed and keeps every node's labels sound |
| ShortestPaths.LabelsAreLower | attic/assess_internetness.py:209-218 | once the heap is empty no walk is lighter than the label of its end |
| ShortestPaths.FinishedIsExact | attic/assess_internetness.py:209-218 | so each label is the exact distance, infinite exactly for nodes no walk reaches |
| ShortestPaths.Dijkstra | attic/assess_internetness.py:203-218 | for any multigraph with non-negative weights, returns for every node the least weight of any walk from the start, or infinity if there is none; it ends, with each node's edges scanned at most once |
| ShortestPaths.ReverseWalk | attic/assess_internetness.py:203-218 | in a symmetric graph a walk can be walked back at the same weight |
| ShortestPaths.DistanceSymmetric | attic/assess_internetness.py:203-218 | hence distances are symmetric |
| SharedFile.RegisterRow | agents/base_agent.py:702-723 | the first row with this id gets the new field and keeps its others, every other row stays as it is; without one the row is added at the end |
| SharedFile.UpdateRow | agents/public_node_discovery.py:177-190 | the first row with this id gets the new status and no other row changes; refused exactly when there is none |
| SharedFile.EffectMeaning | agents/base_agent.py:642-652 | what a call makes of the file it read: an append keeps a list and replaces anything else it can read; unreadable files are left alone; a registration starts a registry in a missing or blank file |
| SharedFile.InitialInv | agents/base_agent.py:565-598 | the protocol's invariant holds initially |
| SharedFile.AcquireKeeps | agents/base_agent.py:580-581 | taking the lock keeps it |
| SharedFile.ReadKeeps | agents/base_agent.py:642-652 | the holder reads the current version |
| SharedFile.OpenTempKeeps | agents/base_agent.py:583-584 | opening the shared temp name truncates nothing any reader has open |
| SharedFile.RenameKeeps | agents/base_agent.py:583-586 | the rename publishes exactly the holder's operation applied to the version it read |
| SharedFile.AbortKeeps | agents/base_agent.py:587-598 | a call may fail at any point before its rename and leaves the file as it was |
| SharedFile.NextInv | agents/base_agent.py:565-660 | every step of every process keeps the invariant and only extends the log of commits |
| SharedFileRuns.RunInv | agents/base_agent.py:565-660 | so it holds in every state of every run |
| SharedFileRuns.LogOnlyGrows | agents/base_agent.py:581-588 | once committed, always committed, in the same place |
| SharedFileRuns.Linearizable | agents/base_agent.py:629-660 | in every reachable state the file is the initial file after the committed operations in commit order, and each took effect on the version it followed |
| SharedFileRuns.CommittedExactlyOnce | agents/base_agent.py:629-660 | a call is in the log exactly when it is past its rename, once, with its own operation |
| SharedFileRuns.CommitOrderIsRealTime | agents/base_agent.py:579-588 | a call that begins after another has committed is later in the commit order |
| SharedFileRuns.TempIsExclusive | agents/base_agent.py:581-588 | only the lock holder writes the temp file, and it is never the shared file nor a file a reader has open |
| SharedFileRuns.ReadersSeeCommits | agents/base_agent.py:600-624 | a reader without the lock returns some committed version, never a partial one |
| SharedFileRuns.LateReaderIsRecent | agents/base_agent.py:600-624 | that version is no older than the one current when it began |
| SharedFileRuns.ReadsAreMonotone | agents/base_agent.py:600-624 | a read that begins after another has finished sees no older version |
| SharedFileRuns.AppendsAccumulate | agents/base_agent.py:629-660 | when all operations are appends the list is the initial one followed by every appended item in commit order |
| SharedFileRuns.VersionsArePrefixes | agents/base_agent.py:629-660 | and the versions form a growing chain of prefixes |
| SharedFileRuns.UpsertKeepsIds | agents/base_agent.py:702-723 | registering keeps at most one row per id |
| SharedFileRuns.SetFieldKeepsIds | agents/public_node_discovery.py:177-190 | so does a status update by the second client of the protocol |
| SharedFileRuns.RegistryIdsStayUnique | agents/base_agent.py:671-738 | over any run of operations each id keeps at most one row |
| SharedFileRuns.LastOperationIsShown | agents/base_agent.py:671-738 | in every reachable state the row of an id shows the field of the last committed registration or status update of that id, as long as only such operations follow it |
| SharedFileRuns.UntouchedIsKept | agents/base_agent.py:702-708 | an id that no committed operation names shows what it showed at first |
| SortedLists.Sorted | gml_processing/create_caida_connected_with_loops.py:338 | a set as its increasing list |
| TopologyExtraction.LoadCaidaGraph | gml_processing/create_caida_connected_with_loops.py:242-266 | each pair carries the relation of the last line that names it, in either order |
| TopologyExtraction.LastRelIs | gml_processing/create_caida_connected_with_loops.py:260-261 | the last line that joins two systems gives their relation |
| TopologyExtraction.LoadedGraphIsUndirected | gml_processing/create_caida_connected_with_loops.py:260-264 | so the loaded graph is symmetric with equal relations, and closed over the listed systems |
| TopologyExtraction.Enqueue | gml_processing/create_caida_connected_with_loops.py:286-289 | exactly the unseen neighbours are queued, each once |
| TopologyExtraction.Explore | gml_processing/create_caida_connected_with_loops.py:278-291 | the search from an unvisited node collects exactly its component |
| TopologyExtraction.Components | gml_processing/create_caida_connected_with_loops.py:271-292 | the components found are those of the listed systems, and cover them all |
| TopologyExtraction.Largest | gml_processing/create_caida_connected_with_loops.py:298 | the first of the greatest components |
| TopologyExtraction.LargestOverall | gml_processing/create_caida_connected_with_loops.py:298 | no listed system has a larger component |
| TopologyExtraction.Expand | gml_processing/create_caida_connected_with_loops.py:300-311 | the bounded expansion is connected to its start inside itself and has exactly min(limit, component) nodes |
| TopologyExtraction.FindConnectedSubgraph | gml_processing/create_caida_connected_with_loops.py:268-314 | the result is connected using its own nodes only, lies in one component of greatest size, and has exactly min(limit, that size) nodes, sorted |
| TopologyRenumbering.InducedSubgraph | gml_processing/create_caida_connected_with_loops.py:324-328 | exactly the edges between chosen nodes, with their relations |
| TopologyRenumbering.AddSelfLoops | gml_processing/create_caida_connected_with_loops.py:316-334 | the induced subgraph with a self-loop on every node and nothing else added |
| TopologyRenumbering.Numbering | gml_processing/create_caida_connected_with_loops.py:338 | numbers by position in the sorted list |
| TopologyRenumbering.RenumberNodes | gml_processing/create_caida_connected_with_loops.py:336-348 | an order-preserving isomorphism onto 0..n-1 that keeps every relation |
| TopologyPipeline.ExtractTopology | gml_processing/create_caida_connected_with_loops.py:437-463 | the whole pipeline: ids 0..n-1, a self-loop on each, connected, otherwise a mirror of the loaded links between the chosen systems; none exactly when fewer than two are chosen |
| TopologyPipeline.MirrorsUndirected | gml_processing/create_caida_connected_with_loops.py:316-348 | such a topology has edge (s, t) exactly when it has (t, s), with equal relation |
| TopologyPipeline.MirrorsConnected | gml_processing/create_caida_connected_with_loops.py:336-348 | renumbering keeps connectedness |
| TopologyPipeline.LatencySymmetric | gml_processing/create_caida_connected_with_loops.py:153-175 | the latency between two nodes is symmetric, at least 1 and at most 150 ms, and at least 15 between different nodes, although the table lists each pair once |
| TopologyPipeline.LatencyIsBetweenRegions | gml_processing/create_caida_connected_with_loops.py:38-65 | two different nodes are as far apart as the table has their regions, listed in either order; a node is 1 ms from itself |
| TopologyPipeline.RegionsAreRanges | gml_processing/create_caida_connected_with_loops.py:136-150 | regions are consecutive ranges of node numbers, the first five each of the nearest size to its share of the nodes, the last with what is left |
| TopologyPipeline.RoutesSymmetric | gml_processing/create_caida_connected_with_loops.py:153-175 | edges with these latencies form a symmetric weighted graph |
| TopologyPipeline.PathReaches | gml_processing/create_caida_connected_with_loops.py:336-348 | a path of the topology is a walk for the router |
| TopologyPipeline.DistancesFiniteAndSymmetric | attic/assess_internetness.py:203-218 | hence over an extracted topology every distance is finite and symmetric |
| GmlSyntax.NextToken | src/gml_parser.rs:204-239 | a token is followed by a shorter text, so lexing ends on every input |
| GmlSyntax.GraphBody | src/gml_parser.rs:439-465 | the items of a graph leave the stream at the closing bracket, and never longer than before, so parsing ends on every input |
| GmlLayout.TokensAfterLayout | src/gml_parser.rs:133-153 | leading white space and comments never change the tokens |
| GmlLayout.TokenIsLocal | src/gml_parser.rs:204-239 | a token does not depend on the text after it, as long as no word runs on |
| GmlLayout.TailReplaced | src/gml_parser.rs:204-239 | behind any number of tokens the text may be replaced by another one with the same tokens |
| GmlLayout.LayoutAnywhere | src/gml_parser.rs:204-239 | inserting white space or newline-ended comments anywhere between two tokens, whatever layout stands there already, leaves all tokens as they were |
| GmlLayout.LayoutIsInvisible | src/gml_parser.rs:133-153 | and therefore the result of parsing |
| GmlValues.QuotedExact | src/gml_parser.rs:155-187 | a text written between quotes is read back exactly when its backslashes and quotes cannot be taken for escapes or the end |
| GmlValues.BareExact | src/gml_parser.rs:189-239 | a value written bare is read back exactly when it is one non-empty word |
| GmlValues.ShownNumberIsRead | src/gml_parser.rs:323-329 | a 32-bit number written in decimal is one word and reads back |
| GmlEmitter.NoRepeatMeansDistinct | src/gml_parser.rs:520-526 | the duplicate scan finds nothing exactly for distinct ids |
| GmlEmitter.NoDanglingMeansKnown | src/gml_parser.rs:528-542 | the edge scan finds nothing exactly when both ends of every edge are nodes |
| GmlEmitter.ValidateMeaning | src/gml_parser.rs:519-550 | the verdict is fine exactly for distinct ids, known ends, and at least one edge when there are several nodes |
| GmlEmitter.ValidateTopology | src/gml_parser.rs:519-550 | the loops of the check give that verdict, first fault first |
| GmlEmitter.NoAddressFault | src/utils/validation.rs:38-64 | the address scan finds nothing exactly when every address is one and no two nodes share theirs |
| GmlEmitter.ValidateAddresses | src/utils/validation.rs:38-64 | the loop of that check gives the first fault |
| GmlEmitter.WriteNode | src/orchestrator.rs:89-108 | appends one node block |
| GmlEmitter.WriteEdge | src/orchestrator.rs:111-130 | appends one edge block |
| GmlEmitter.GenerateGml | src/orchestrator.rs:60-146 | refuses exactly the graphs that fail the topology check or the address check, with the first fault, and writes the specified text for the others |
| GmlLines.LexesLine | src/orchestrator.rs:95-106 | an attribute line lexes to its key and its value, quoted or bare |
| GmlLines.NodeLinesParsed | src/gml_parser.rs:315-336 | node attribute lines in any order parse to those attributes |
| GmlLines.EdgeLinesParsed | src/gml_parser.rs:372-409 | edge attribute lines likewise, when the packet loss is already in its final form |
| GmlLines.GraphLinesParsed | src/gml_parser.rs:439-457 | graph attribute lines likewise |
| GmlRoundTrip.NodeParsed | src/gml_parser.rs:307-362 | a written node parses to the node with its bandwidth converted and its address and region derived anew |
| GmlRoundTrip.EdgeParsed | src/gml_parser.rs:364-429 | a written edge parses to the edge with its bandwidth converted |
| GmlRoundTrip.TokensOfEmitted | src/orchestrator.rs:60-132 | the emitted text lexes to the tokens of its blocks |
| GmlRoundTrip.RoundTrip | src/orchestrator.rs:60-132 | for every printable graph and every attribute order, parsing the emitted text succeeds and returns the graph with bandwidths converted |
| GmlRoundTrip.BandwidthMeaning | src/orchestrator.rs:29-38 | N and NMbit become N, NGbit becomes 1000 N |
| GmlRoundTrip.ConvertedIsNumber | src/orchestrator.rs:29-38 | a converted bandwidth is a bare word that converts to itself |
| GmlRoundTrip.ConvertedGraphOk | src/orchestrator.rs:29-38 | a converted graph is printable and converts to itself |
| GmlRoundTrip.SecondPassChangesNothing | src/orchestrator.rs:60-132 | writing and parsing a second time returns the same graph, in any second order |
| GmlRoundTrip.SameVerdict | src/gml_parser.rs:519-550 | the converted graph gets the same verdict as the original, from both checks |
| GmlParsed.WordStands | src/gml_parser.rs:189-239 | an identifier or number token stands in the text as it is, behind layout only, and ends where no word can go on |
| GmlParsed.PrintableIsShapeAndValues | src/orchestrator.rs:60-132 | what the round trip asks of a graph is its shape, and conditions on its values alone |
| GmlParsed.ParsedIsShaped | src/gml_parser.rs:307-474 | every parsed graph has that shape: identifier keys other than the reserved ones, 32-bit ids, address and region as its attributes give them |
| GmlParsed.ReparsedIsConverted | src/gml_parser.rs:478-486 | reading any file, writing it and reading that again gives the same graph with bandwidths converted, as soon as its values can be written |
| GmlParsed.ParsedAddresses | src/gml_parser.rs:42-62 | a parsed graph is refused for its addresses exactly when two nodes share one |
| GmlMeaning.NodesAreLocated | src/gml_parser.rs:42-81 | every node of every parsed graph has the address of the first of ip, ip_addr, address and ip_address that holds an IPv4 address once the quotes around it are gone, none exactly when no one does; and the region of the first of region, geographic_region and location that is present |
| GmlMeaning.TrimmedExact | src/gml_parser.rs:48-49 | there is exactly one text that is the value without the quotes around it, and it is the one taken |
| GmlMeaning.EscapedIsRead | src/gml_parser.rs:155-187 | every text at all, written between quotes with escapes, is read back |
| GmlMeaning.OtherEscapesStay | src/gml_parser.rs:173-176 | a backslash before any other character stays, with that character |
| GmlMeaning.OpenQuoteRefused | src/gml_parser.rs:186 | a quote that is never closed is an error |
| GmlMeaning.StrayRefused | src/gml_parser.rs:234-236 | so is a character that begins no token |
| GmlMeaning.PlainWordIsRead | src/gml_parser.rs:189-202 | a word of letters, digits and the signs _ . - + is one token, an identifier or a number by its first character |
| GmlMeaning.U32Meaning | src/gml_parser.rs:323-329 | a number is read exactly when it is decimal digits, perhaps behind a plus sign, of at most 4294967295, and has their value |
| GmlMeaning.NodeWithoutId | src/gml_parser.rs:347-349 | a node block with any attributes but no id is refused |
| GmlMeaning.EdgeWithoutEnd | src/gml_parser.rs:419-422 | so is an edge block without its source, or with a source but no target |
| GmlMeaning.LossIsScaled | src/gml_parser.rs:394-406 | a packet loss in percent is stored as a fraction if it is a number, any other value as it stands |
| GmlMeaning.VerdictIsReason | src/gml_parser.rs:519-550 | the verdict names a fault that is there: a repeated id, an edge to no node, no edges |
| GmlMeaning.EverySuffixGoes | src/orchestrator.rs:29-38 | trimming a unit takes every copy of it off the end and nothing else |
| GmlMeaning.NodeLineWritten | src/orchestrator.rs:89-108 | every attribute of a node has its line: a bandwidth bare and converted, all else in quotes |
| GmlMeaning.EdgeLineWritten | src/orchestrator.rs:111-130 | likewise for an edge, where a packet loss is bare as well |
| GmlMeaning.BlocksInFile | src/orchestrator.rs:80-132 | and the blocks of all nodes and all edges stand in the file |
| GmlParser.Lexer.SkipWhitespace | src/gml_parser.rs:133-141 | moves past exactly the leading white space |
| GmlParser.Lexer.SkipComment | src/gml_parser.rs:143-153 | moves to the end of the line after a `#` |
| GmlParser.Lexer.ReadQuoted | src/gml_parser.rs:155-187 | the loop over escapes reads the specified text and stops after the closing quote, or fails at the end of input |
| GmlParser.Lexer.ReadWord | src/gml_parser.rs:189-202 | reads the longest word |
| GmlParser.Lexer.Next | src/gml_parser.rs:204-239 | the lexer in place gives the specified token and position, or the specified error |
| GmlParser.Parser.NodeAttributes | src/gml_parser.rs:311-345 | the attribute loop of a node, with its special keys and errors |
| GmlParser.Parser.NodeBlock | src/gml_parser.rs:307-362 | a node block, with its missing-id error |
| GmlParser.Parser.EdgeAttributes | src/gml_parser.rs:368-417 | the attribute loop of an edge |
| GmlParser.Parser.EdgeBlock | src/gml_parser.rs:364-429 | an edge block, with its missing-end errors |
| GmlParser.Parser.GraphItems | src/gml_parser.rs:435-465 | the loop over nodes, edges and graph attributes |
| GmlParser.Parser.Graph | src/gml_parser.rs:431-474 | the whole graph |
| GmlParser.ParseGmlText | src/gml_parser.rs:478-486 | the in-place lexer and parser end on every input with the specified graph or error |
| BlockRate.SortLaws | scripts/block_time_analysis.py:76 | the sort orders events by height and time and keeps exactly the events |
| BlockRate.DedupeByHeight | scripts/block_time_analysis.py:77-83 | the loop over a seen set keeps the first event of each height |
| BlockRate.SortedDedupedIsChain | scripts/run_sim_helpers.py:457-467 | sorting and deduplicating leaves exactly the earliest event of each height above the last one processed |
| BlockRate.ChainUnique | scripts/run_sim_helpers.py:457-467 | there is only one such list |
| BlockRate.SortedDedupedIsFirsts | scripts/run_sim_helpers.py:457-467 | on a log in time order whose heights are first reached in order it is the list of first arrivals |
| BlockRate.Bucket | scripts/run_sim_helpers.py:294-306 | every interval falls in one of the buckets |
| BlockRate.BucketIsColumn | scripts/run_sim_helpers.py:294-306 | the bucket is the column of 15 s the interval lies in, the first for negative ones and the last from 16 minutes on |
| BlockRate.ProcessTail | scripts/run_sim_helpers.py:449-485 | one call over the persisted state is the specified update |
| BlockRate.TrimEarly | scripts/run_sim_helpers.py:483-485 | trimming the recent intervals early never changes what remains after a later trim |
| BlockRate.OneMoreCall | scripts/run_sim_helpers.py:449-485 | a call whose tail overlaps what was processed adds exactly the new blocks |
| BlockRate.StateIsFolded | scripts/run_sim_helpers.py:449-485 | after any sequence of covering, overlapping calls the state is that of the first arrivals so far |
| BlockRate.StreamingEqualsBatch | scripts/run_sim_helpers.py:449-485 | hence equals one call on the whole log |
| BlockRate.AbsorbCounts | scripts/run_sim_helpers.py:474-481 | each bucket counts the intervals between consecutive blocks that lie in its column, and the buckets sum to their number |
| BlockRate.IntervalAt | scripts/block_time_analysis.py:140 | interval i is the time between blocks i and i + 1 |
| BlockRate.HistogramIsBatch | scripts/block_time_analysis.py:74-140 | the streamed histogram counts the batch tool's intervals by length, 65 columns that sum to the number of distinct heights less one; the recent window is the last thirty of them, and the state remembers the last block |
| IntervalJoin.BisectRight | analysis/results_clumping_0p67/conn_gossip_join.py:80-81 | the number of intervals that have opened, with the slack |
| IntervalJoin.Join | analysis/results_clumping_0p67/conn_gossip_join.py:77-89 | finds the last interval that contains the time, with 1 ms of slack at its end; finds nothing only if there is none or the interval after it opened more than 86400000 ms ago |
| IntervalJoin.LastHoldingIsLast | analysis/results_clumping_0p67/conn_gossip_join.py:82-85 | the naive scan: the last interval that holds the time, none exactly when none does |
| IntervalJoin.WalkFinds | analysis/results_clumping_0p67/conn_gossip_join.py:82-87 | what the walk returns, including its early stop |
| IntervalJoin.JoinIsNaiveScan | analysis/results_clumping_0p67/conn_gossip_join.py:77-89 | the join equals the naive scan exactly when the walk is not cut short by an interval opened over a day ago; it then finds nothing |
| IntervalJoin.JoinCanMiss | analysis/results_clumping_0p67/conn_gossip_join.py:82-87 | a concrete connection that is open for over a day and is missed |
| SpawnSchedule.GrowKeepsPositive | scripts/scenario_parser.py:364 | with growth at least 1, truncation never shrinks a positive size nor turns another one positive |
| SpawnSchedule.CalculateBatchedSchedule | scripts/scenario_parser.py:335-366 | whenever the loop ends at all it returns the specified schedule |
| SpawnSchedule.GoesOnWhileShort | scripts/scenario_parser.py:354-364 | after n passes the loop goes on exactly while the room in n batches falls short of the agents |
| SpawnSchedule.EndsIffRoom | scripts/scenario_parser.py:354-364 | with growth at least 1 the loop ends exactly when there is nobody to place or both sizes are at least 1 |
| SpawnSchedule.TimesLength | scripts/scenario_parser.py:354-366 | with exactly one time for each agent |
| SpawnSchedule.BatchInPlace | scripts/scenario_parser.py:354-361 | batch k of the returned schedule stands right behind the batches before it, with its own times |
| SpawnSchedule.TimesInBatch | scripts/scenario_parser.py:354-361 | agent i of batch k starts at the delay, plus k batch intervals, plus i small steps |
| SpawnSchedule.NominalMeaning | scripts/scenario_parser.py:364 | the nominal size grows by the factor and is cut towards zero |
| SpawnSchedule.SizeMeaning | scripts/scenario_parser.py:355-357 | a batch has the least of its nominal size, the maximum and the agents left, and none when one of these is not positive |
| SpawnSchedule.ScheduleIncreasing | scripts/scenario_parser.py:354-366 | strictly increasing times whenever a full batch fits its interval, for any growth |
| SpawnSchedule.DoublingSizes | scripts/scenario_parser.py:354-364 | with growth 2, batch k has the least of initial times 2^k, the maximum and the agents left, at its own times, right behind the earlier ones |
| SpawnSchedule.FirstDefaults | scripts/timing_constants.py:22-29 | by default five agents start 1200 s in, 5 s apart |
| SpawnSchedule.SecondDefaults | scripts/timing_constants.py:22-29 | and ten more 1200 s later |
| SpawnSchedule.DefaultsIncrease | scripts/timing_constants.py:20-32 | the default parameters satisfy the condition |
| GroupExpansion.ExpandStagger | scripts/scenario_parser.py:369-428 | for each kind of stagger: when it is refused, the number of values, and the value of every agent |
| GroupExpansion.ExpandFields | scripts/scenario_parser.py:574-629 | the loop over a group's fields gives one column a field and the offsets for the next group, or refuses a list of the wrong length |
| GroupExpansion.ExpandAgentGroups | scripts/scenario_parser.py:488-650 | the loops over groups, fields and agents give the specified agents |
| GroupExpansion.ResolvePhaseStarts | scripts/scenario_parser.py:894-911 | the four assignments resolve each automatic phase start from the unresolved fields, and change nothing else; refused exactly when a stop is no time |
| UpgradeWaterfall.OffsetInGroup | scripts/scenario_parser.py:596-623 | inside a group the offset of its daemons, or of its wallets, has grown by the size of the group for each of their staggered stops passed |
| UpgradeWaterfall.DefaultStagger | scripts/scenario_parser.py:565-571 | a first stop without a stagger of its own gets 30 s in a group of several agents, and none in a group of one |
| UpgradeWaterfall.OffsetBeforeGroup | scripts/scenario_parser.py:596-623 | before a group it is the number of agents upgraded so far plus what other staggered stops added |
| UpgradeWaterfall.AgentHas | scripts/scenario_parser.py:642-655 | an agent keeps the values of its own group unless a later group names it again |
| UpgradeWaterfall.UnstaggeredFieldIs | scripts/scenario_parser.py:624-629 | a field without a stagger is the same for all agents, or the list given for them |
| UpgradeWaterfall.OtherFieldsRestart | scripts/scenario_parser.py:600-611 | a staggered field that is no phase starts from its own base again in every group |
| UpgradeWaterfall.FirstStartsRestart | scripts/scenario_parser.py:600-611 | so does the start of the first phase |
| UpgradeWaterfall.StopTime | scripts/scenario_parser.py:596-623 | the exact stop time of every daemon and wallet with a linear stagger, whatever else is staggered |
| UpgradeWaterfall.Waterfall | scripts/scenario_parser.py:596-623 | across all groups the j-th upgraded daemon, or wallet, stops at base + j * step exactly when no other staggered stop of its kind comes before it |
| UpgradeWaterfall.DriftingScenario | scripts/scenario_parser.py:596-623 | a concrete scenario in which a second staggered stop makes the next group late |
| UpgradeWaterfall.RestartFollowsStop | scripts/scenario_parser.py:896-903 | an unstaggered automatic restart comes 300 s after the agent's own stop, however that was written, so its two phases never overlap; 300 s after 0 without a stop, and a stop that is no time is refused |
| UpgradeWaterfall.FirstPhaseStart | scripts/scenario_parser.py:894-911 | an automatic first phase begins at the start time of its agent, or at 0 without one |
| UpgradeWaterfall.StaggeredRestart | scripts/scenario_parser.py:596-623 | a staggered restart is base + j * step when listed before the stop, and later by a whole group when listed after it |

## Left out

- RPC clients, wallets, DNS, process control, argument parsing, logging and block generation: plumbing.
- A chain that changes while one poll is reading it: the headers a poll sees belong to one chain.
- Rounding of floats, in the difficulty, the wait, the similarity and the growth of batches: `real` is exact.
- The exponential distribution: a draw is any non-negative number.
- `use_lock=False` writes and readers that take a shared lock, and the JSON encoding of documents; other fields of a registry row are one value.
- Host-language number formatting and character tables: parameters of the GML model with stated constraints.
- The statistics that the address check logs, and the grouping of nodes by autonomous system.
- Reading logs and link files with regular expressions: the model starts from parsed events, intervals, links and normalized lines.
- The writer of extracted topologies and its bandwidth table: presentation.
- Components as sorted lists of systems: the model keeps them as sets.
- SpawnSchedule.CalculateBatchedSchedule: takes parameters for which the loop ends, of any sign; for the others there is no result to describe.
- IntervalJoin.Join: does not model the counting of matched events by label, because it adds nothing to the search.
- BlockRate.ProcessTail: does not model the rate summary it prints nor the check of a malformed state file.
- GroupExpansion.ExpandAgentGroups: takes the staggers of start_time and activity_start_time as given instead of deriving their defaults, and does not collect bootstrap start times; durations are already seconds.
- UpgradeWaterfall.Waterfall: takes groups of at least one agent; for a reversed range, whose count is below 1, only `StopTime` speaks.
- GroupExpansion.ResolvePhaseStarts: does not model automatic activity, waiting and polling times, which come from calibration data.
- The random stagger is an arbitrary function from agent to value.
