# r3v3rs3 in Dafny

A model of the parts of the reverse proxy r3v3rs3 that carry an algorithm or a protocol, with proofs of
what they promise. Each module follows one part of the program:

- `RoundRobin`, `Upstream`, `RotatingCandidates`: smooth weighted round robin, the group that plays it,
  and what stays bounded while its candidates change. Products are written `Times(n, x)`, which
  `TimesIsProduct` shows to be n * x.
- `Circuits`, `Permits`: the circuit breaker of a server, and the permits, connection guards and
  configuration reloads around it, as a state machine over every interleaving.
- `EarlyData`, `EarlyDataTimes`, `EarlyDataRequests`: the anti-replay buffer for TLS early data, refined
  to a plain history, the times for which it is one, and the requests that it rejects.
- `TagPattern`: the backtracking matcher for git tag patterns.
- `Sorting`, `Topology`, `Compose`, `ComposeBuilder`, `ComposeIds`, `ComposeOrder`: the graph of a Compose
  document, and when the order of its services shows.
- `ComposeEdges`, `ComposePlaces`, `ComposeContents`: which places of the document each node and edge
  comes from.
- `StreamCounters`: the counters of the adaptive stream controller under concurrent calls.
- `HeaderTemplate`, `HeaderRules`: header values with placeholders, and header rules as text.
- `SecurityRules`, `SecurityProfiles`, `SentHeaders`: applying a security header profile against auditing
  a list, and both against what the proxy sends.
- `Multiaddr`, `ShortId`, `PriorityHeader`: parsers and printers that undo each other.
- `Env`, `EnvResolved`, `EnvSecondPass`, `EnvSecrets`: the two readers of environment files, what they
  make of a resolved text, and the secrets of the program.
- `AccessList`: access lists against the IP filter.
- `Basics`, `Text`, `Decimal`, `Net`: the values and the part of Rust's `str` that the others use.

Code that updates things in place is a class or a method with loops, proved against specification
functions; the theorems are lemmas about those functions. Literals of the program (keywords, header
texts, id prefixes) reach the general theorems through records of functions with a stated condition
(`Clear`), and a lemma shows that the program's own literals meet it.

Properties that turned out not to hold, with the exact condition under which they do:

- Tag patterns: the loop compares literally before it looks at a star, so a `*` byte in a tag can be
  lost. It follows the documented meaning of all patterns if and only if the tag has no `*`.
- Circuit breaker: a reload that changes a setting makes a new group and copies the circuit of each
  server; an unchanged configuration keeps the group. A trial that is under way reports to the old group,
  so a taken slot that is copied is given back by nobody. A reload leaves a new group that refuses every
  request for ever if and only if it changes a setting, the breaker of the new group is enabled and the
  slot of the newest group is taken, whether or not its trial has ended. No later reload cures it.
- Anti-replay: the time of a call is read before the lock is taken, so times can decrease in the order
  of the lock. The buffer is the plain history in all runs with given times if and only if the window is
  zero or no call, from the third on, finds an earlier time expired that a later call finds within the
  window.
- Compose: the order of the services shows if and only if two services first mention a bind mount and a
  named volume that spells it out, and the top level does not declare that volume; then the first service
  decides the node.
- Environment files: the readers see the same variable of a line if and only if the line is not an
  indented `export`, as ` export A=1` is. The resolved text reads back as the returned entries if and only
  if no line exports a variable indented and every value is plain; a quoted `"x # y"` comes back as `x`. A second pass of the resolver generates nothing if and
  only if no resulting secret is empty or a placeholder; a secret like `changeme # old` is kept by the
  first pass only.
- Security profiles: an applied profile is detected if and only if the list has no other value for one
  of its names behind the first rule with that name. The audit skips rules that remove a header and reads
  templates as text. It reads the last value sent if and only if that is what the last rule with the name
  that does something leaves, and a header of an applied profile is sent if and only if no later rule that
  does something removes it or renders to another value.

Parameters stand for what is outside: the YAML library gives a value or an error, IP addresses have a
text form without a slash that is read back, secrets are generated by a function, clocks are arguments,
and each atomic operation or locked call is one step. Times and counters are unbounded, except the
breaker counters, which saturate at the largest 32-bit value as in the code.

## Model

| member | source | states |
|---|---|---|
| RoundRobin.EveryCycleIsFair | r3v3rs3/src/proxy/health.rs:825-852 | While the candidates stay the same, in every stretch of as many turns as the total weight, wherever it starts, each server goes first exactly as often as its weight says, and the current weights repeat (the smoothness that the test at lines 1171-1181 samples) |
| RoundRobin.OneCycle | r3v3rs3/src/proxy/health.rs:825-852 | From fresh current weights one cycle gives every server exactly its weight in turns and brings all current weights back to where they were |
| RoundRobin.NeverFarFromItsShare | r3v3rs3/src/proxy/health.rs:825-852 | While the candidates stay the same, at every moment a candidate is less than one turn ahead of its proportional share and behind it by fewer turns than there are servers |
| RoundRobin.CurrentWeightBounds | r3v3rs3/src/proxy/health.rs:825-852 | While the candidates stay the same, every current weight stays above minus the total and at most (servers - 1) times the total, for any number of turns |
| RotatingCandidates.BoundedForAnyCandidates | r3v3rs3/src/proxy/health.rs:678-708 | For every sequence of candidate sets, as health and circuits change them between turns, the current weights of the whole group sum to zero and twice each one stays within (servers - 1) times the largest total weight on either side |
| RotatingCandidates.NearItsShareAfterAnyHistory | r3v3rs3/src/proxy/health.rs:678-708 | After every history of candidate sets, in a stretch of turns with the same candidates of any length, the turns that a server wins times the total stay within (servers - 1) times the largest total weight of its proportional share |
| RotatingCandidates.TurnKeepsContained | r3v3rs3/src/proxy/health.rs:825-852 | A turn among any candidates keeps twice the sum of any k current weights at most k times (servers - k) times the largest total, which is what bounds each of them |
| RoundRobin.TurnKeepsBalance | r3v3rs3/src/proxy/health.rs:825-852 | A turn keeps the current weights of the candidates summing to zero, with none at or below minus the total |
| RoundRobin.Account | r3v3rs3/src/proxy/health.rs:825-852 | After n turns a current weight is the start plus n times the weight minus the total for each turn won |
| RoundRobin.Bystander | r3v3rs3/src/proxy/health.rs:825-852 | A server with weight zero or outside the list never goes first and keeps its current weight, whoever else plays |
| RoundRobin.HighestIsFirstHighest | r3v3rs3/src/proxy/health.rs:830-846 | The chosen server is the first one with the highest increased weight among those with a positive weight |
| Upstream.UpstreamGroup.constructor | r3v3rs3/src/proxy/health.rs:587-610 | A new group starts with every current weight at zero |
| Upstream.UpstreamGroup.Gain | r3v3rs3/src/proxy/health.rs:828-846 | The loop raises each listed weight, leaves the others, returns the total and the position of the first highest |
| Upstream.UpstreamGroup.OrderRoundRobin | r3v3rs3/src/proxy/health.rs:825-852 | The list is rotated so that the winner is first, and the new current weights are those of one turn |
| Upstream.UpstreamGroup.Candidates | r3v3rs3/src/proxy/health.rs:678-690 | The healthy candidates by index, rotated so that the winner of the turn is first, then the unhealthy ones by index; without a healthy one the unhealthy ones, rotated; exactly the unblocked servers with a weight, each once; the turn is played among the servers of the health of the first one |
| Upstream.UpstreamGroup.TakeTurn | r3v3rs3/src/proxy/health.rs:698-708 | The list after the turn is the given list split at one position and swapped around, and it starts with the winner |
| Upstream.UpstreamGroup.Partition | r3v3rs3/src/proxy/health.rs:679-688 | The two lists are exactly the unblocked servers with a weight, by health, with strictly increasing indices |
| Circuits.OpensExactlyAtTheRatio | r3v3rs3/src/proxy/health.rs:158-181 | A closed circuit opens with the outcome that brings the current window to enough requests and the configured share of failures, and with no other outcome, in every run |
| Circuits.SmallWindowsAreCounted | r3v3rs3/src/proxy/health.rs:173-177 | On a window that 32 bits can count the share that the saturating counters give is the real one |
| Circuits.CountersTally | r3v3rs3/src/proxy/health.rs:199-212 | While a circuit stays closed its two saturating counters and window start are those of the current window of outcomes |
| Circuits.BreakerCell.Admit | r3v3rs3/src/proxy/health.rs:146-156 | Refuses exactly when the circuit blocks at that time; a refusal or a closed circuit changes nothing, a closed circuit never makes a trial, and a trial leaves the circuit blocking |
| Circuits.BreakerCell.Record | r3v3rs3/src/proxy/health.rs:158-181 | The whole new state and the reported change; a result that is no trial leaves a circuit that is not closed exactly as it was and reports nothing; a closed circuit stays closed or blocks exactly the times before now plus the open duration, and the opening is reported |
| Circuits.BreakerCell.FinishTrial | r3v3rs3/src/proxy/health.rs:182-197 | The result of a trial decides what is blocked: after a failure exactly the times before now plus the open duration, after a success none; a result is reported exactly when the circuit was half open, and otherwise nothing changes |
| Circuits.BreakerCell.Count | r3v3rs3/src/proxy/health.rs:199-212 | Counting never moves the circuit; the window it counts in starts now or less than a window ago; and failures never exceed requests nor either the largest 32-bit value |
| Circuits.BreakerCell.OpenCircuit | r3v3rs3/src/proxy/health.rs:214-222 | Exactly the times before now plus the open duration are blocked from here on |
| Circuits.BreakerCell.ReleaseTrial | r3v3rs3/src/proxy/health.rs:224-228 | After the slot of a running trial is given back the next request, at whatever time, becomes the new trial; nothing changes otherwise |
| Permits.SafeInEveryRun | r3v3rs3/src/proxy/health.rs:243-344 | In every state of every run of acquire, result, drop and reload steps: per group at most one trial without a result, its circuit then half open with the slot taken, and the connection counter equal to the counted permits and guards, so it never goes below zero |
| Permits.StepKeepsInvariant | r3v3rs3/src/proxy/health.rs:243-344 | Every single step of requests and reloads keeps that invariant |
| Permits.AcquireDecides | r3v3rs3/src/proxy/health.rs:873-896 | A permit is given if and only if the breaker is off or admits the request, and a refusal changes nothing |
| Permits.ReloadSticksIffSlotIsTaken | r3v3rs3/src/proxy/health.rs:504-658 | A reload leaves a new group with a trial slot that nobody holds if and only if it changes a setting, the breaker of the new group is enabled and the trial slot of the old one is taken; an unchanged configuration keeps the group |
| Permits.StuckInEveryRun | r3v3rs3/src/proxy/health.rs:617-658 | A group whose slot nobody holds refuses every request in every continuation at every time, and no step ever makes another group so |
| Permits.NoReloadCures | r3v3rs3/src/proxy/health.rs:504-658 | When nobody holds the taken slot of the newest group, that group and every group that any later reload makes, also by way of groups without a breaker, refuses every request at every time while its breaker is enabled, in every continuation |
| Permits.StuckIsForLife | r3v3rs3/src/proxy/health.rs:905-931 | No step changes whether an existing group has a slot that nobody holds |
| Permits.IdleRecovers | r3v3rs3/src/proxy/health.rs:136-156 | Every other group without a trial under way admits a request as soon as the open time, if any, is over |
| Permits.ReloadDuringTrialCutsTheServerOff | r3v3rs3/src/proxy/health.rs:504-658 | For every enabled configuration that one failure can open and every enabled one that differs from it in some setting, a run: a failure opens the circuit, the second configuration is loaded during the trial, and the server is cut off |
| Permits.OpenInEveryRun | r3v3rs3/src/proxy/health.rs:146-197 | Once the circuit of a server is open until a time, in every continuation of acquires, results, drops and reloads, with late results included, it refuses every request before that time and lets through one at or after it, as long as the acquires of that group come before that time |
| Permits.ReportDecides | r3v3rs3/src/proxy/health.rs:158-197 | What a result does in any state of a run: a trial decides a half-open circuit, another result opens a closed circuit exactly at the configured ratio, every other result changes nothing, and no result touches another group |
| EarlyData.BufferRefinesHistory | r3v3rs3-api/src/early_data.rs:63-98 | In every run with orderly times (what one call finds expired stays expired for later calls) the map with lazy pruning and overflow answers exactly like a plain history: it rejects exactly the keys accepted less than a window ago since the last reset |
| EarlyDataTimes.AgreesIffOrderly | r3v3rs3-api/src/early_data.rs:63-98 | The exact condition on a list of times: buffer and history agree in all runs with these times, for all keys, clears and limits, if and only if the window is zero or the times are orderly |
| EarlyData.NonDecreasingIsOrderly | r3v3rs3-api/src/early_data.rs:63-76 | Times that do not decrease are orderly, so callers whose clock readings follow the order of the lock get the plain history |
| EarlyDataTimes.DisorderShows | r3v3rs3-api/src/early_data.rs:63-98 | For every list of times that is not orderly a concrete run with limit 3 in which a replay passes |
| EarlyData.PruningIsInvisible | r3v3rs3-api/src/early_data.rs:90-94 | Pruning at orderly times loses nothing that a later call could find |
| EarlyData.SecondAcceptanceNeedsAReset | r3v3rs3-api/src/early_data.rs:76-98 | At orderly times one key passes twice within a window only across a clear() or a call before which max_entries different keys were accepted within the window |
| EarlyData.NoReplayWithinCapacity | r3v3rs3-api/src/early_data.rs:63-98 | At orderly times, while fewer keys than max_entries are accepted per window and nobody clears, no key passes twice within a window |
| EarlyData.NoRoomAcceptsEverything | r3v3rs3-api/src/early_data.rs:90-98 | A buffer with max_entries zero or one, or with a window of zero, accepts every request, in every run |
| EarlyData.NeverOutgrows | r3v3rs3-api/src/early_data.rs:90-98 | In every run, with any times, the map holds at most max_entries entries (one when max_entries is zero) |
| EarlyData.EvictionMatches | r3v3rs3-api/src/early_data.rs:90-98 | The half-full pruning and the overflow test decide the same resets as a history that is never pruned |
| EarlyData.FullIsObservable | r3v3rs3-api/src/early_data.rs:95-97 | At orderly times the map overflows only when max_entries different keys were accepted within the window |
| EarlyDataRequests.ExactlyReplaysAreRejected | r3v3rs3-api/src/early_data.rs:63-98 | Over requests as the caller gives them (address, method, path): at orderly times a request is let through if and only if no request with the same address, the same path and the same method up to ASCII case was let through less than a window ago with nothing forgotten since |
| EarlyDataRequests.SameKeyIffSameRequest | r3v3rs3-api/src/early_data.rs:64-68 | Two requests have the same key if and only if address and path are equal and the methods are equal up to ASCII case |
| EarlyData.AntiReplayBuffer.constructor | r3v3rs3-api/src/early_data.rs:53-59 | A new buffer is empty and has the given window and limit |
| EarlyData.AntiReplayBuffer.CheckAndRecord | r3v3rs3-api/src/early_data.rs:63-87 | The new map and the answer of one call on the key with the upper-cased method; an accepted key is in the map and the limit holds |
| EarlyData.AntiReplayBuffer.EvictExpiredOrOverflow | r3v3rs3-api/src/early_data.rs:90-98 | Prunes above half of the limit, empties at the limit, and never changes an entry that stays |
| EarlyData.AntiReplayBuffer.Clear | r3v3rs3-api/src/early_data.rs:116-122 | Afterwards every key passes at every time and is then the only entry |
| TagPattern.MatchesTagPattern | r3v3rs3-api/src/platform.rs:1650-1676 | The loop with one remembered star decides the declarative relation in which a literal byte is tried before the star, on every pattern and tag, in at most (pattern length + 1) * (tag length + 1) turns; a positive answer satisfies the documented meaning; without a * in the pattern the answer is equality byte by byte with ? for any one byte, and without * and ? plain equality |
| TagPattern.Sound | r3v3rs3-api/src/platform.rs:1650-1676 | A positive answer always satisfies the documented meaning (* any run of bytes, ? one byte), for every pattern and tag |
| TagPattern.Complete | r3v3rs3-api/src/platform.rs:1650-1676 | A negative answer is right when the tag or the pattern has no * byte |
| TagPattern.AgreesOnEveryPatternIffTagHasNoStar | r3v3rs3-api/src/platform.rs:1659-1662 | The matcher follows the documented meaning of every pattern if and only if the tag has no * byte |
| TagPattern.AgreesOnEveryTagIffPatternHasNoStar | r3v3rs3-api/src/platform.rs:1659-1662 | The matcher follows the documented meaning on every tag if and only if the pattern has no * byte |
| TagPattern.StarInTagBreaksAPattern | r3v3rs3-api/src/platform.rs:1659-1662 | For every tag with a * a concrete pattern that the loop gets wrong |
| TagPattern.StarInPatternBreaksATag | r3v3rs3-api/src/platform.rs:1659-1662 | For every pattern with a * a concrete tag that the loop gets wrong |
| TagPattern.LaterStartEndsLater | r3v3rs3-api/src/platform.rs:1662-1671 | Starting the same stretch of pattern later in the tag ends it no earlier, which is why only the last star is retried |
| TagPattern.StarTakesOver | r3v3rs3-api/src/platform.rs:1662-1671 | A star that is reached takes over from the star before it without losing a match |
| TagPattern.SkipTrailingStars | r3v3rs3-api/src/platform.rs:1642-1648 | The first position that is not a star |
| ComposeBuilder.ParseComposeTopology | r3v3rs3-api/src/compose_graph.rs:161-231 | Blank text gives the empty topology, text that is no mapping an error, and every other document the two stable sorts of its graph with the counts of the summary; `EdgeCount` and `NodeIff` say what is in it |
| Compose.EveryTopologyIsClosed | r3v3rs3-api/src/compose_graph.rs:184-231 | In every topology node ids are distinct, each edge starts at exactly one service node, each network and volume edge ends at exactly one node of its kind, and every top-level node is there as declared |
| Compose.TopologyIgnoresServiceOrder | r3v3rs3-api/src/compose_graph.rs:187-222 | Reordering the services mapping never changes the edges, and changes nothing when no two services clash over a volume id |
| ComposeIds.OrderIsInvisible | r3v3rs3-api/src/compose_graph.rs:187-222 | With the ids of the program, reordering the services of a document without a volume source that starts with bind: changes nothing |
| ComposeOrder.OrderShowsIffSpelledOut | r3v3rs3-api/src/compose_graph.rs:187-222 | The exact condition on a document: reordering its services changes the topology if and only if two services first mention a bind mount and a named volume that spells it out as bind: and the source, and the top level does not declare that volume |
| ComposeOrder.OrderNeverShowsIffNoClash | r3v3rs3-api/src/compose_graph.rs:187-222 | The same for any ids that are clear, with the clash of two services as the condition |
| ComposeOrder.DeclaredIffNamed | r3v3rs3-api/src/compose_graph.rs:269-308 | The top level declares the id of a bind mount if and only if its volumes have the name that spells it out |
| ComposeIds.OrderCanShow | r3v3rs3-api/src/compose_graph.rs:545-550 | For every bind source two documents that differ only in the order of their services, one of which spells the source out as a named volume in the long form, have topologies with different nodes |
| ComposeIds.SharedVolumeId | r3v3rs3-api/src/compose_graph.rs:545-550 | A named volume and a bind mount share an id exactly when the name is bind: and the source |
| ComposeIds.NoBindNamesNoClash | r3v3rs3-api/src/compose_graph.rs:545-550 | Without a bind: source no two services clash |
| ComposeIds.ProgramIdsAreClear | r3v3rs3-api/src/compose_graph.rs:198-416 | Ids determine names and kinds, but for named volumes against bind mounts |
| Topology.NodesIgnoreOrderIffNoClash | r3v3rs3-api/src/compose_graph.rs:187-217 | No order of the services changes the sorted nodes if and only if no two services first mention different nodes for an id that the top level does not declare |
| Topology.NodesIgnoreServiceOrder | r3v3rs3-api/src/compose_graph.rs:187-217 | Without a clash any two orders give the same sorted nodes |
| Topology.ClashShows | r3v3rs3-api/src/compose_graph.rs:553-568 | A clash makes two orders give different sorted nodes |
| Topology.EdgesIgnoreServiceOrder | r3v3rs3-api/src/compose_graph.rs:218-222 | Any two orders of the services give the same stably sorted edges |
| Topology.AddServicesKeeps | r3v3rs3-api/src/compose_graph.rs:187-215 | Adding services keeps ids distinct, the declared sets exact and every edge anchored |
| Topology.TouchKeeps | r3v3rs3-api/src/compose_graph.rs:463-640 | One mention keeps that invariant: an undeclared node is new, a declared one has the right kind |
| Topology.AddServicesAppends | r3v3rs3-api/src/compose_graph.rs:187-215 | Adding services only appends, so no declared node is overwritten |
| Topology.CalculateSummary | r3v3rs3-api/src/compose_graph.rs:664-688 | The counts of each kind and of running and healthy services; the kinds partition the nodes |
| Compose.EveryGraphIsWellFormed | r3v3rs3-api/src/compose_graph.rs:184-215 | The graph of every document has distinct ids and anchored edges and starts with its top-level nodes |
| Compose.TopLevelIsWellFormed | r3v3rs3-api/src/compose_graph.rs:233-308 | The top-level nodes have distinct ids and the kinds their ids say |
| Compose.ServicesAreServices | r3v3rs3-api/src/compose_graph.rs:191-206 | Services of a mapping have distinct names, and all they mention starts at their own node |
| ComposeBuilder.TopologyBuilder.ParseTopLevelNetworks | r3v3rs3-api/src/compose_graph.rs:233-267 | Appends exactly one node per named network and declares exactly their ids |
| ComposeBuilder.TopologyBuilder.ParseTopLevelVolumes | r3v3rs3-api/src/compose_graph.rs:269-308 | Appends exactly one node per named volume and declares exactly their ids |
| ComposeBuilder.TopologyBuilder.ParseServices | r3v3rs3-api/src/compose_graph.rs:187-215 | The loop over the mapping builds the graph of its services in order |
| ComposeBuilder.TopologyBuilder.AddService | r3v3rs3-api/src/compose_graph.rs:193-213 | Pushes the node of the service, then what it mentions |
| ComposeBuilder.TopologyBuilder.CollectServiceEdges | r3v3rs3-api/src/compose_graph.rs:402-415 | Dependencies, networks, volumes and links, in this order |
| ComposeBuilder.TopologyBuilder.CollectDependsOn | r3v3rs3-api/src/compose_graph.rs:417-461 | One edge per named dependency of a list or a mapping, with the shortened condition (`EdgeCount` says which places of a document these are) |
| ComposeBuilder.TopologyBuilder.CollectServiceNetworks | r3v3rs3-api/src/compose_graph.rs:463-507 | One edge per network name, and a node for each name met the first time |
| ComposeBuilder.TopologyBuilder.AttachNetwork | r3v3rs3-api/src/compose_graph.rs:488-506 | The node only when the network set does not have the id; the edge always |
| ComposeBuilder.TopologyBuilder.CollectServiceVolumes | r3v3rs3-api/src/compose_graph.rs:509-529 | The volumes of the list in order, short and long form; other items are skipped |
| ComposeBuilder.TopologyBuilder.ParseStringVolume | r3v3rs3-api/src/compose_graph.rs:531-578 | Source, target and mode are the trimmed parts between colons; an empty source is skipped |
| ComposeBuilder.TopologyBuilder.ParseMappingVolume | r3v3rs3-api/src/compose_graph.rs:580-640 | Source and target as given, mode ro when read only; an empty or missing source is skipped |
| ComposeBuilder.TopologyBuilder.MountVolume | r3v3rs3-api/src/compose_graph.rs:545-577 | The node only when the volume set does not have the id; the edge always |
| ComposeBuilder.TopologyBuilder.CollectServiceLinks | r3v3rs3-api/src/compose_graph.rs:642-662 | One edge to the trimmed name before the first colon of each link that has one |
| Sorting.SortIsStable | r3v3rs3-api/src/compose_graph.rs:217-222 | Sorting orders by key and keeps the elements of each key in their order |
| Sorting.SortedIsUnique | r3v3rs3-api/src/compose_graph.rs:217-222 | There is only one list that does so |
| ComposeContents.EdgeCount | r3v3rs3-api/src/compose_graph.rs:184-231 | Every edge is in the topology exactly as often as the document has places that ask for it, a place being a service by its index, a section and an item by its index; source, target, kind and label are read off the document there |
| ComposeContents.EdgesFollowTheDocument | r3v3rs3-api/src/compose_graph.rs:402-662 | The edges are the stable sort of what these places ask for in document order: services, within a service dependencies, networks, volumes and links, within a section its items |
| ComposeContents.NodeIff | r3v3rs3-api/src/compose_graph.rs:184-308 | A node is in the topology if and only if it is the node of a service, of a declared network or of a declared volume, or the one that the first place of the document with an undeclared id brings |
| ComposePlaces.DocumentPlaces | r3v3rs3-api/src/compose_graph.rs:402-662 | The mentions of a document are exactly those of its places, one for each and in order |
| ComposeEdges.MentionsAreSections | r3v3rs3-api/src/compose_graph.rs:402-662 | What the collecting code finds in a service is what its sections say item by item, with the label of each |
| StreamCounters.CountersInEveryRun | r3v3rs3-api/src/priority.rs:361-442 | In every interleaving of atomic steps no counter goes below zero, and whenever no call is under way active streams are the held permits, active background streams the held background permits, and the classes add up to the total |
| StreamCounters.ClassesInEveryRun | r3v3rs3-api/src/priority.rs:377-442 | In every interleaving, whenever no call is under way, each class has counted exactly the streams recorded with its urgencies (up to 2, 3 and 4, from 5 on), and the active background streams are the permits taken with an urgency from 5 on and not given back |
| StreamCounters.StepKeepsAccount | r3v3rs3-api/src/priority.rs:377-442 | Each atomic step keeps every counter equal to what the calls and permits under way account for |
| HeaderTemplate.ParserInvertsPrinter | r3v3rs3-api/src/header_rules.rs:200-256 | The parser returns a part list for a value if and only if the list is normalised and prints to the value |
| HeaderTemplate.ParseHeaderTemplate | r3v3rs3-api/src/header_rules.rs:200-215 | The loop over the rest: an accepted value is the printed form of the normalised parts, a rejected one is the printed form of none |
| HeaderTemplate.ParseBrace | r3v3rs3-api/src/header_rules.rs:225-243 | One brace: a doubled one goes to the literal, a closed known name becomes a placeholder, anything else fails |
| HeaderTemplate.PlaceholderAsWritten | r3v3rs3-api/src/header_rules.rs:170-256 | Each of the seven names in braces is parsed as the placeholder of its variable |
| HeaderTemplate.ParsedPrintsBack | r3v3rs3-api/src/header_rules.rs:200-250 | From any intermediate state, what is parsed prints to what was read |
| HeaderTemplate.ParsedIsNormal | r3v3rs3-api/src/header_rules.rs:200-250 | Only normalised lists are produced |
| HeaderTemplate.PrintedParsesBack | r3v3rs3-api/src/header_rules.rs:200-250 | Every normalised list is parsed back from its printed form |
| HeaderTemplate.NamesAreClear | r3v3rs3-api/src/header_rules.rs:180-190 | The names of the variables are distinct, not empty, free of both braces at every position, and made of allowed characters |
| HeaderRules.FormatUndoesParse | r3v3rs3-api/src/header_rules.rs:102-155 | Formatting parsed rules and parsing the text again gives the same rules |
| HeaderRules.FailureIsTheFirstBadLine | r3v3rs3-api/src/header_rules.rs:136-147 | Parsing fails with a line number and error if and only if that line is the first that is neither blank nor a comment nor a rule, counted from one in the text |
| HeaderRules.FormatIsRead | r3v3rs3-api/src/header_rules.rs:102-133 | A canonical rule is read back from its line |
| HeaderRules.ParsedIsCanonical | r3v3rs3-api/src/header_rules.rs:82-122 | A parsed rule is valid and trimmed |
| HeaderRules.LinesOfFormatted | r3v3rs3-api/src/header_rules.rs:149-155 | The formatted text has exactly one line per rule |
| HeaderRules.OneRulePerLine | r3v3rs3-api/src/header_rules.rs:136-147 | A successful parse gives exactly one rule for each line that is neither blank nor a comment, in the order of the lines |
| HeaderRules.NoteIsSkipped | r3v3rs3-api/src/header_rules.rs:138-143 | The skipped lines are exactly nothing or a comment that starts with a hash, between blanks |
| HeaderRules.ValidIff | r3v3rs3-api/src/header_rules.rs:82-99 | A rule is valid if and only if its name is a token (visible ASCII without the delimiters, section 5.6.2 of RFC 9110), is in no case one of the nine protected names, and its value is the printed form of a template; the error is about the first of these that fails |
| SecurityProfiles.ApplyThenAudit | r3v3rs3-api/src/security_headers.rs:283-358 | For every list and profile: applying twice is applying once; every rule that is not the first with a name of the profile stays; the audit then sees the profile if and only if the list carries no other value for one of its names behind the first rule with that name; and a profile that is seen scores 100, or 90 when neither it nor the list sets a permissions policy |
| SecurityProfiles.ScoreAfterApply | r3v3rs3-api/src/security_headers.rs:283-329 | The score of every list after every profile, seen or not: each header earns what its later value in the list, else the profile, else the list gives |
| SecurityProfiles.UndisturbedScore | r3v3rs3-api/src/security_headers.rs:283-329 | A list with no value behind the first rule of each audited name scores 90 and what the permissions policy earns, whatever it held before |
| SecurityProfiles.RemovalIsNotSeen | r3v3rs3-api/src/security_headers.rs:331-358 | The list that sets a header and removes it again: after applying Strict the audit detects Strict with 100 points, and no response carries such a header, whatever the values render to |
| SecurityProfiles.OnePerNameIsDetected | r3v3rs3-api/src/security_headers.rs:283-306 | On a list with at most one rule per name, ignoring case, the applied profile is seen |
| SecurityProfiles.SecondRuleHides | r3v3rs3-api/src/security_headers.rs:347-358 | A list with a second rule for a name on which the applied profile is not seen |
| SecurityProfiles.AtMostOneProfile | r3v3rs3-api/src/security_headers.rs:606-629 | No list matches two profiles |
| SecurityProfiles.DetectMatchingProfile | r3v3rs3-api/src/security_headers.rs:606-613 | A profile is reported if and only if the list matches it, although the profiles are tried in order |
| SecurityProfiles.AnalyzeResponseRules | r3v3rs3-api/src/security_headers.rs:309-329 | The score is the sum of what the six headers earn and at most 100, so the 8-bit sum cannot overflow; it is 100 if and only if all six have a good value, and zero if and only if none has a value; the grade is the one whose interval has the score, and the detected profile is the one the list matches |
| SecurityProfiles.HstsNeeds | r3v3rs3-api/src/security_headers.rs:366-372 | A value is good if and only if both directives occur in it, in any case |
| SecurityProfiles.CspNeeds | r3v3rs3-api/src/security_headers.rs:411-416 | A value is good if and only if one of the two directives occurs in it, in any case |
| SecurityProfiles.FrameNeeds | r3v3rs3-api/src/security_headers.rs:455-460 | A value is good if and only if one of the two words occurs in it, in any case |
| SecurityProfiles.ReferrerNeeds | r3v3rs3-api/src/security_headers.rs:540-545 | A value is good if and only if one of the two policies occurs in it, in any case |
| SecurityProfiles.ProfileScore | r3v3rs3-api/src/security_headers.rs:360-604 | Every list that matches a profile scores 100, or 90 without a permissions policy, which Strict and Balanced always set |
| SecurityProfiles.ProgramIsClear | r3v3rs3-api/src/security_headers.rs:81-199 | The names and values of the program: names differ, every value passes its own check, any two profiles differ, and the checks ignore case |
| SecurityProfiles.ApplyProfileToRules | r3v3rs3-api/src/security_headers.rs:283-306 | Afterwards the list holds every header of the profile with its value, and what the audit reads of the other headers is unchanged |
| SecurityRules.ApplyRules | r3v3rs3-api/src/security_headers.rs:283-306 | The loop replaces the first rule with the name or appends |
| SecurityRules.ApplyIsIdempotent | r3v3rs3-api/src/security_headers.rs:283-306 | A second application changes nothing, on every list |
| SecurityRules.OthersStay | r3v3rs3-api/src/security_headers.rs:283-306 | Every rule that is not the first with a name of the profile stays at its index |
| SecurityRules.MissingAreAppended | r3v3rs3-api/src/security_headers.rs:283-306 | What is added at the end is exactly the missing rules in the order of the profile |
| SecurityRules.SeenIffUndisturbed | r3v3rs3-api/src/security_headers.rs:347-358 | The exact condition under which the applied profile matches |
| SecurityRules.TruthfulIffNotRemoved | r3v3rs3/src/proxy/http/header_rules.rs:85-135 | For every list, rendering and upstream response: the audit reads the last value sent if and only if the last rule with the name that does something removes the header while no rule carries a value, or renders to what the audit reads, or there is no such rule and the server sends what the audit reads; on values that render as written, if and only if the last rule does not remove the header behind a rule that carries a value |
| SecurityRules.LastRuleDecides | r3v3rs3/src/proxy/http/header_rules.rs:85-135 | Of the rules applied in order, without those that do not compile or append what is no header value, only the last one with the name decides the last value sent; a removal, or a value that is no header value, leaves none |
| SecurityRules.SentIffUnopposed | r3v3rs3/src/proxy/http/header_rules.rs:85-135 | A header of an applied profile that renders as written is sent if and only if the last rule behind the first with its name that does something, if any, renders to the same value, so that a removal counts |
| SecurityRules.SeenIsSentUnlessRemoved | r3v3rs3/src/proxy/http/header_rules.rs:85-135 | On a list whose values for the name render as written, what the audit sees of an applied profile is sent if and only if that last rule does not remove it |
| SentHeaders.ProfileIsSentUnlessOpposed | r3v3rs3/src/proxy/http/header_rules.rs:85-146 | With the validation, placeholders and header texts of the program, in every response: a header of an applied profile is sent if and only if no later rule that does something removes it or renders to another value |
| SentHeaders.ProfileIsAsWritten | r3v3rs3/src/proxy/http/header_rules.rs:85-146 | Every rule of every profile of the program compiles and is sent as written |
| SentHeaders.PlainIsSent | r3v3rs3/src/proxy/http/header_rules.rs:109-146 | A value of visible characters without braces compiles to one literal and is sent as written, whatever the variables |
| SecurityRules.MatchesProfile | r3v3rs3-api/src/security_headers.rs:615-629 | The loop with early exit decides whether the list shows the value of every rule of the profile |
| Multiaddr.AcceptedAddressesSurvive | r3v3rs3-api/src/multiaddr.rs:15-195 | For every accepted text the printed form parses to the address with TLS normalised, printing that is a fixed point, and every accessor answers as before |
| Multiaddr.ParseUndoesPrint | r3v3rs3-api/src/multiaddr.rs:103-195 | Parsing the printed form of a parsed address gives its normal form |
| Multiaddr.FromStr | r3v3rs3-api/src/multiaddr.rs:103-161 | The loop terminates because the rest shrinks, and gives the same protocols as the recursive reading, or an error with the text |
| Multiaddr.ToString | r3v3rs3-api/src/multiaddr.rs:164-195 | The loop writes the printed form |
| Multiaddr.NormaliseKeeps | r3v3rs3-api/src/multiaddr.rs:15-86 | Normalising TLS keeps every accessor and the printed form |
| Multiaddr.NormaliseTwice | r3v3rs3-api/src/multiaddr.rs:164-195 | Normalising again changes nothing |
| Multiaddr.ParsedShape | r3v3rs3-api/src/multiaddr.rs:103-161 | A parsed address has http last, a path that starts with a slash and no slash in a host |
| Multiaddr.ProgramIsClear | r3v3rs3-api/src/multiaddr.rs:103-188 | The keywords and ports of the program are read back from their text |
| Multiaddr.FlagsIff | r3v3rs3-api/src/multiaddr.rs:15-31 | Each of the four flags says whether the address has such a part anywhere |
| Multiaddr.FirstIff | r3v3rs3-api/src/multiaddr.rs:38-74 | Address, port and host are those of the first part that has one, and missing if and only if no part has one |
| Multiaddr.SocketAddrIff | r3v3rs3-api/src/multiaddr.rs:33-48 | A socket address is the first address with the first port; an error if and only if one is missing, naming the printed address |
| Multiaddr.ProtocolNameIff | r3v3rs3-api/src/multiaddr.rs:76-97 | Each of the seven names with the flags that give it |
| Multiaddr.UnknownIsSkipped | r3v3rs3-api/src/multiaddr.rs:103-161 | A segment that is none of the nine words is skipped at every place of a text |
| Multiaddr.SlashesInFront | r3v3rs3-api/src/multiaddr.rs:103-106 | Any number of slashes in front changes nothing, and an error names the text as given |
| Env.ReadersAgreeUnlessIndented | r3v3rs3-api/src/compose_env.rs:172-216 | The template resolver and the file reader see the same variable of a line if and only if the line is not an indented export of a variable or of no name |
| Env.ReadersAgreeOnText | r3v3rs3-api/src/compose_env.rs:148-216 | On a text without such a line both give the same names in the same order, the same values but for generated ones, and the generated names are a subsequence |
| EnvResolved.ResolvedTextReadsBack | r3v3rs3-api/src/compose_env.rs:148-216 | On every template the resolved text reads back as exactly the returned entries if and only if every resulting value is plain (one line, trimmed, unquoted and without a comment) and no line is an indented export of a variable, whatever the generator returns |
| EnvResolved.IndentedExportIsMissed | r3v3rs3-api/src/compose_env.rs:177-203 | For every variable, value and indentation: the file reader sees the indented export, and the resolver copies the line without an entry |
| EnvSecrets.ProgramMissesIndentedExport | r3v3rs3-api/src/compose_env.rs:177-203 | The line " export A=1": the file reader of the program gives A with the value 1, and the resolver copies the line without an entry |
| EnvResolved.RereadIffPlain | r3v3rs3-api/src/platform.rs:1297-1329 | A one-line value is read as it is written if and only if it is plain, and every other value gets shorter |
| EnvResolved.WrittenLine | r3v3rs3-api/src/compose_env.rs:172-230 | What both readers make of a line that the resolver writes, with or without export, for every value |
| EnvResolved.OnlyNames | r3v3rs3-api/src/container.rs:211-222 | Only letters, digits and underscores, at most 4096 and without a digit in front, become the name of a variable |
| EnvResolved.QuotedLine | r3v3rs3-api/src/platform.rs:1318-1323 | Every value in quotes of either kind, with or without export, is read as what is between them |
| EnvResolved.CommentedLine | r3v3rs3-api/src/platform.rs:1323-1329 | Every value without quotes is read up to the first space and hash, whatever follows |
| EnvResolved.QuotedValueIsLost | r3v3rs3-api/src/compose_env.rs:172-216 | For every one-line value that is not plain a template line that gives it in quotes, and whose resolved line gives another value |
| EnvResolved.HashIsNotPlain | r3v3rs3-api/src/platform.rs:1318-1329 | A value with a hash behind a blank, such as x # y, is one of these |
| EnvSecondPass.SecondPass | r3v3rs3-api/src/compose_env.rs:148-216 | Resolving the resolved text again without overwriting, with a generator of its own, generates nothing if and only if no resulting secret is empty or a placeholder; the entries are the same if and only if every value survives being written and read, or is a replaced secret that the second generator draws again; and, when nothing is generated, the text is the same if and only if every value is plain and re-joining the lines keeps them |
| Env.ParseEnvFile | r3v3rs3-api/src/platform.rs:1297-1329 | The loop gives the variables of the lines in order |
| Env.ResolveEnvTemplate | r3v3rs3-api/src/compose_env.rs:148-170 | The loop gives the joined lines, the entries and the generated names of the resolved lines |
| EnvSecrets.KeptThenGenerated | r3v3rs3-api/src/compose_env.rs:189-230 | A secret whose value is no placeholder but is one without its comment is kept by the first pass and generated by the second |
| EnvSecrets.PassesOf | r3v3rs3-api/src/compose_env.rs:148-230 | For every such secret on a template of one line: the text, entries and generated names of both passes, each with its own generator |
| EnvSecrets.ProgramGeneratesOnTheSecondPass | r3v3rs3-api/src/compose_env.rs:50-230 | The template KEY=changeme # old with the word export and the secret names and placeholders of the program: the first pass keeps the secret and writes KEY=changeme, the second generates it |
| EnvSecrets.SecretIff | r3v3rs3-api/src/compose_env.rs:50-104 | A name is secret if and only if, in capitals, it ends with one of the eleven suffixes, is one of the eleven words or has one of the six parts somewhere |
| EnvSecrets.BracketIff | r3v3rs3-api/src/compose_env.rs:119-122 | Exactly the texts in angle brackets, or in braces behind a dollar sign, are bracket placeholders |
| EnvSecrets.ExportIsAName | r3v3rs3-api/src/compose_env.rs:172-186 | The word of the program meets the condition of the general theorems |
| ShortId.ParsedPrintsBack | r3v3rs3-api/src/id.rs:31-64 | Every accepted text is an id whose printed form is the text in lower case |
| ShortId.PrintedParsesBack | r3v3rs3-api/src/id.rs:31-64 | Every id that can be held is parsed back from its printed form |
| ShortId.AcceptedIff | r3v3rs3-api/src/id.rs:42-64 | A text is accepted if and only if it is fourteen hexadecimal digits, or one to eight ASCII letters, digits and hyphens |
| ShortId.PrintIsInjective | r3v3rs3-api/src/id.rs:31-40 | Different ids print differently |
| ShortId.BytesAreReachable | r3v3rs3-api/src/id.rs:18-24 | An id made of seven bytes prints as their hexadecimal form |
| ShortId.FromStr | r3v3rs3-api/src/id.rs:46-64 | The buffer that a failed hexadecimal reading may have written to never shows in a result |
| ShortId.DecodeInto | r3v3rs3-api/src/id.rs:51-54 | Succeeds exactly on fourteen hexadecimal digits, and touches nothing when the number of UTF-8 bytes is not fourteen |
| PriorityHeader.PrintedReadsBack | r3v3rs3-api/src/priority.rs:45-51 | Reading a printed priority gives it back with the urgency clamped to 7, so exactly the urgencies up to 7 are unchanged |
| PriorityHeader.LastMemberWins | r3v3rs3-api/src/priority.rs:173-200 | A member at the end of any header overrides its own kind and nothing else (section 4 of RFC 9218) |
| PriorityHeader.UnrecognisedIsInvisible | r3v3rs3-api/src/priority.rs:183-191 | A member that is not recognised changes nothing, at the front, in the middle or at the end of any header |
| PriorityHeader.LastMembersDecide | r3v3rs3-api/src/priority.rs:179-200 | The result is the last urgency, or 3, and the last flag, and nothing when no member is recognised |
| PriorityHeader.ParseRfc9218Priority | r3v3rs3-api/src/priority.rs:173-200 | The loop over the trimmed header gives the meaning of the untrimmed one, with an urgency of at most 7 |
| PriorityHeader.TrimIsInvisible | r3v3rs3-api/src/priority.rs:174-183 | Trimming the header before splitting it changes no member |
| PriorityHeader.ProgramClamps | r3v3rs3-api/src/priority.rs:208-225 | The member reader gives no urgency above 7 |
| AccessList.UnknownListRejects | r3v3rs3-api/src/access_list.rs:49-71 | A route that names an unknown list rejects every IPv4 and IPv6 client from every country |
| AccessList.DenyAllRejectsEveryone | r3v3rs3-api/src/access_list.rs:33-44 | The list used for an unknown id rejects every client, also IPv4 addresses mapped into IPv6 |
| AccessList.HttpProxy.ApplyAccessLists | r3v3rs3-api/src/access_list.rs:49-71 | The proxy and each route with a list take its filter and authentication, the others are untouched, and the returned ids are exactly the unknown ones in order, the proxy first; a proxy or route that names an unknown list then rejects every client; and a second call leaves filter, authentication and routes and returns the same ids |
| AccessList.SecondTimeNothing | r3v3rs3-api/src/access_list.rs:49-71 | A second application leaves every route as the first one did (ApplyAccessLists says the same of the proxy) |
| AccessList.Find | r3v3rs3-api/src/access_list.rs:51-57 | The first list with the id, or the one that rejects everyone and a note of the id |
| AccessList.AllowsIff | r3v3rs3-api/src/policy.rs:44-83 | A client is let in if and only if neither its address nor its country is denied and it has an allowed address or country, or neither kind is listed |
| AccessList.ContainsIff | r3v3rs3-api/src/policy.rs:68-76 | A network is the block of addresses of its family around its address, with one address for the longest prefix and twice as many for each bit less |
| AccessList.CanonicalIff | r3v3rs3-api/src/policy.rs:68-69 | Exactly the IPv6 addresses ::ffff:0:0/96 stand for an IPv4 address, that of the low 32 bits |
| AccessList.LookupIff | r3v3rs3-api/src/access_list.rs:51-57 | The list of an id is the first one with that id, and there is none if and only if no list has it |
| AccessList.MissingIff | r3v3rs3-api/src/access_list.rs:49-71 | The returned ids are exactly the named ones that no list has, each as often as it is named and in that order |
| AccessList.FilterIsMonotone | r3v3rs3-api/src/policy.rs:68-83 | Longer deny lists let nobody in, and longer allow lists that were not empty shut nobody out |

## Left out

- The other load balancing policies (least connections, latency, geography, hash, random), passive and active health checks and their probes: other choices of an order, or input and output.
- Image, build, ports, environment count and restart policy of a service in the Compose graph: fields that are copied.
- YAML, JSON, URL, regular expression and IP address text libraries: parameters, see above.
- Weak memory ordering, mutex poisoning, and the consistency of `stats()` snapshots.
- `should_throttle_background`: a single comparison that its callers make in a separate step.
- Wrap-around of the 64-bit stream counters after 2^64 requests.
- `len` and `is_empty` of the anti-replay buffer: single reads.
- Error message texts; an error is modelled by its kind and the text it carries.
- `resolve_env_entries`, secret masking, schemas, serde defaults and `validate` range checks: single-branch facts.
- OAuth, deployment, certificates, caching, the web interface and everything that talks to the network.
- EarlyData.BufferRefinesHistory: states orderly times as a hypothesis, because the property is false without it (`AgreesIffOrderly` makes the condition exact).
- RoundRobin.EveryCycleIsFair: is about a candidate set that stays the same, because a cycle has no length when it changes; `BoundedForAnyCandidates` covers every sequence of candidate sets.
- RoundRobin.NeverFarFromItsShare: starts from fresh weights, where its upper bound is a single turn; `NearItsShareAfterAnyHistory` covers every history.
- RoundRobin.CurrentWeightBounds: starts from fresh weights; `BoundedForAnyCandidates` covers every history.
- Env.ReadersAgreeOnText: states the absence of indented exports as a hypothesis; the exact condition is per line, in `ReadersAgreeUnlessIndented`.
- EnvSecondPass.SecondPass: asks the secrets of the first pass to be on one line, which the generator of the program guarantees; a generator is a function of the name within one pass, so two lines with one name get one secret.
- Compose.EveryTopologyIsClosed: takes mappings with distinct keys, which the YAML library guarantees.
- ShortId.PrintedParsesBack: is about ids that parsing or seven bytes can make; eight arbitrary bytes do not occur.
