# Husky asynchronous push channels and the max-flow examples, in Dafny

This project models part of Husky, a distributed computing framework. It covers two parts.

**The asynchronous push channels.**
- `AsyncPushChannel::out` flushes one outgoing buffer per destination worker.
  - It visits the destinations in an order rotated to start at the worker's own global id.
  - It never advances the round counter.
- `FastAsyncPushChannel` adds a termination protocol that travels in band:
  - `broadcast_stop_msg` appends a reserved stop message to every worker's buffer and raises the local stop flag.
  - `process_bin` decodes a received stream of (key, message) records. The stop message raises the flag. Any other record is tagged with the index of its key's object in the destination table, which is created when absent, and is appended to a flat receive buffer.

**The local logic of the max-flow examples.**
- The `KeyMinCombiner` of combined channels.
- Two DIMACS line loaders (the templated one and the older one) and the stream reader `ReadDIMACS`.
- The two distributed Edmonds–Karp variants:
  - predecessor backtracking;
  - prefix paths, where each message carries the path that reached it.
- The initialisation and the per-vertex step of push–relabel.

**How the framework is represented.**
- The framework's `list_execute` runs a lambda on every vertex. It becomes a loop over a map of vertex records, visited in any order.
- Channels become per-vertex inboxes (`Inboxes`).
- Aggregators become sums and minimums.
- The mailbox is a class with an append-only ghost log of deliveries.
- The destination object list is a class holding its keys by index.
- The worker topology is a table of global ids per process.

Each state-changing operation is a method proved against a specification function or predicate. The properties the code promises are proved about those specifications:

- **Channels:** rotation, exactly-once delivery and the stop protocol.
- **Loaders:** round trips through the line syntax.
- **Edmonds–Karp:**
  - the search keeps a tree (or prefix) of residual edges rooted at the source;
  - the bottleneck is the path minimum;
  - the update is one augmentation along an augmenting path.
- **Push–relabel:** flow conservation, feasibility and the push/relabel rules.

`get_obj_msg_pairs` returns a reference to the receive buffer and does not drain it; only `prepare` (through `clear_recv_buffer_`) empties it.

## Model

| member | source | states |
|---|---|---|
| Channels.OutSendsReachEveryDestination | core/channel/async_push_channel.hpp:47-52 | every destination d < n is sent to by one flush, at step (d − global id) mod n, with its whole buffer (empty or not), tagged with the channel id and the round counter |
| Channels.OutSendsDistinct | core/channel/async_push_channel.hpp:48-49 | no destination is sent to twice by one flush |
| Channels.RotateBack | core/channel/async_push_channel.hpp:49 | the destination visited at step i, mapped back through the rotation, is i |
| Channels.RotateForth | core/channel/async_push_channel.hpp:49 | the rotation reaches every destination d at step (d − start) mod n |
| Channels.OutSendsAt | core/channel/async_push_channel.hpp:49-52 | step i of a flush delivers buffer (start + i) mod n to that destination |
| Channels.AsyncPushChannel.constructor | core/channel/async_push_channel.hpp:35-37 | the channel starts with round 0 and one empty buffer per worker |
| Channels.AsyncPushChannel.Out | core/channel/async_push_channel.hpp:45-56 | the mailbox log grows by exactly the flush's deliveries, in rotated order; every buffer is empty afterwards; the round counter is unchanged |
| Channels.FastAsyncPushChannel.constructor | core/channel/async_push_channel.hpp:72-74 | on a topology that covers the send buffers and a duplicate-free table, the fast channel starts valid, keeps its stop message, starts with an empty receive buffer and has the flag down |
| Channels.FastAsyncPushChannel.BroadcastStopMsg | core/channel/async_push_channel.hpp:82-94 | record (0, stop message) is appended exactly once to the end of the buffer of every worker of a valid topology; other buffers and earlier records stay; the flag is raised |
| Channels.FastAsyncPushChannel.SendStopToProcess | core/channel/async_push_channel.hpp:85-90 | the inner loop appends the record once to the buffer of each local worker of process i |
| Channels.AppendedOnce | core/channel/async_push_channel.hpp:83-91 | enumerating every (process, local worker) pair of a valid topology reaches each global id exactly once |
| Channels.AppendedStep | core/channel/async_push_channel.hpp:89 | one append extends the destination's buffer by the record and changes no other buffer |
| Channels.FastAsyncPushChannel.ClearRecvBuffer | core/channel/async_push_channel.hpp:107-110 | the receive buffer is emptied and the flag lowered; the channel stays valid |
| Channels.FastAsyncPushChannel.Prepare | core/channel/async_push_channel.hpp:96 | `prepare` is `clear_recv_buffer_`, and the channel stays valid |
| Channels.FastAsyncPushChannel.ProcessBin | core/channel/async_push_channel.hpp:111-134 | table, receive buffer and flag end as the record-by-record decoding `Process` of the stream leaves them; a raised flag stays raised; the table stays duplicate-free, so the channel stays valid |
| Channels.FastAsyncPushChannel.In | core/channel/async_push_channel.hpp:97 | `in` is `process_bin`, with the same decoding and the channel kept valid |
| Channels.FastAsyncPushChannel.GetObjMsgPairs | core/channel/async_push_channel.hpp:101-102 | returns the receive buffer and leaves it in place |
| Channels.FastAsyncPushChannel.Stop | core/channel/async_push_channel.hpp:104 | returns the flag |
| Channels.StepRecord | core/channel/async_push_channel.hpp:118-131 | the stop message only raises the flag; an absent key adds exactly one object, built from the key, at index old table size; a present key leaves the table and uses the object's position |
| Channels.ProcessStop | core/channel/async_push_channel.hpp:112-118 | after a stream the flag is up exactly when it was up already or the stream holds the stop message |
| Channels.StepGrows | core/channel/async_push_channel.hpp:118-131 | one record only appends: nothing for the stop message, else one pair (object index, message) naming an object with its key; keys stay unique |
| Channels.ProcessGrows | core/channel/async_push_channel.hpp:112-133 | decoding appends to the table, and appends one pair per non-sentinel record to the receive buffer |
| Channels.ProcessTags | core/channel/async_push_channel.hpp:120-131 | the k-th non-sentinel record becomes the k-th new pair, carrying its message and the index of an object with its key |
| Channels.FirstTag | core/channel/async_push_channel.hpp:131 | earlier pairs, and the objects they name, keep their place |
| Channels.ProcessKeys | core/channel/async_push_channel.hpp:122-124 | every key in the table afterwards was there before or is the key of a decoded record |
| Channels.ProcessNoDup | core/channel/async_push_channel.hpp:120-127 | keys in the table stay unique |
| Channels.ProcessPairs | core/channel/async_push_channel.hpp:111-134 | all of the above at once: order, length, tags, appended objects and unique keys |
| Channels.ProcessNoSentinel | core/channel/async_push_channel.hpp:118-131 | the stop message never enters the receive buffer |
| Channels.BroadcastThenDecodeStops | core/channel/async_push_channel.hpp:89-118 | after a broadcast, decoding the bin flushed to a worker of the topology raises its flag; for any worker, the stop message stays out of the receive buffer |
| ObjList.Find | core/channel/async_push_channel.hpp:120-126 | `find` then `index_of`: none exactly when the key is absent, else the first position holding the key |
| ObjList.ObjList.AddObject | core/channel/async_push_channel.hpp:123-124 | appends the object built from the key and returns its index, the old size; the table stays duplicate-free exactly when the key was not in it yet |
| Mailbox.Mailbox.Send | core/channel/async_push_channel.hpp:52 | one send appends one delivery (destination, channel id, round, bin) to the log |
| WorkerInfo.FlattenMember | core/channel/async_push_channel.hpp:83-88 | an id is enumerated exactly when some (process, local worker) pair carries it |
| WorkerInfo.AllIdsNoDup | core/channel/async_push_channel.hpp:83-88 | under a valid topology the enumeration has no repeats and stays below the number of buffers |
| KeyMinCombiner.Combine | examples/max_flow/mf_base.hpp:73-76 | the result is one whole input pair, of minimal key; `other` wins exactly when its key is strictly smaller, so ties keep `val` |
| KeyMinCombiner.FoldLeftmostMin | examples/max_flow/mf_base.hpp:75 | folding the combiner yields a pair of the input of minimal key, replaced only by a strictly smaller key, so the leftmost minimal one |
| KeyMinCombiner.CombinedIsLeftmostMin | examples/max_flow/mf_base.hpp:75 | the combined message of a non-empty inbox is the leftmost message with the minimal key |
| DimacsLine.StoiShowInt | examples/max_flow/mf_base.hpp:106-115 | `stoi` reads back any written decimal integer |
| DimacsLine.ReadSignedShowInt | examples/max_flow/mf_base.hpp:106-110 | a written number is read back and reading stops right after it |
| DimacsLine.TokensOfFour | examples/max_flow/mf_base.hpp:97-98 | four words separated by blanks are four tokens |
| DimacsLine.TokensOfThree | examples/max_flow/mf_base.hpp:97-98 | three words separated by blanks are three tokens |
| DimacsLine.ParseArcText | examples/max_flow/mf_base.hpp:109-110 | `a u v c` is the arc (u − 1, v − 1, c) |
| DimacsLine.ParseProblemText | examples/max_flow/mf_base.hpp:104-106 | `p t n m` skips the problem type, whatever it is, and yields (n, m) |
| DimacsLine.ParseNodeText | examples/max_flow/mf_base.hpp:114-116 | `n id d` is vertex id − 1 with designator d[0] |
| DimacsLine.ParseComment | examples/max_flow/mf_base.hpp:102-103 | a `c` line, whatever follows, is skipped |
| DimacsLine.DispatchArc | examples/max_flow/mf_base.hpp:109-110 | any token list starting with `a` and three numbers is an arc with 0-based ends |
| DimacsLine.DispatchProblem | examples/max_flow/mf_base.hpp:104-106 | any token list starting with `p` reads its third and fourth tokens |
| DimacsLine.DispatchNode | examples/max_flow/mf_base.hpp:114-116 | any token list starting with `n` and a number names that vertex, 0-based, with the third token's first character |
| MfBase.ArcLine | examples/max_flow/mf_base.hpp:109-113 | `a u v c` pushes (u − 1, −1) to vertex v − 1, then (v − 1, c) to vertex u − 1, and changes nothing else |
| MfBase.ProblemLine | examples/max_flow/mf_base.hpp:104-108 | `p t n m` adds n and m to the vertex and edge aggregators and nothing else |
| MfBase.NodeLine | examples/max_flow/mf_base.hpp:114-119 | `n id s` adds id − 1 to the source aggregator, `n id t` to the sink's; any other designator is reported and changes nothing else |
| MfBase.SkippedLines | examples/max_flow/mf_base.hpp:96-103 | empty chunks and comment lines change nothing |
| MfBase.VertexCaps | examples/max_flow/mf_base.hpp:125-130 | the caps pass keeps exactly the received pairs whose second component is not −1, in received order (`RealArcs`) |
| MfBase.RealArcsExact | examples/max_flow/mf_base.hpp:127-128 | a pair is in the caps exactly when it was received and is no placeholder, and two real arcs keep their relative order |
| MfBase.LoadDimacsGraph | examples/max_flow/mf_base.hpp:95-136 | a parse error ends loading with that error; otherwise the statistics are the four aggregator sums, the vertices are the keys pushed to, and each vertex's caps are the real arcs of its inbox |
| MfBase.ArcMakesBothVertices | examples/max_flow/mf_base.hpp:112-128 | after an arc line both ends exist; the tail gets the arc in its caps, the head only a placeholder that the caps pass drops |
| LineLoader.InboxAppend | examples/max_flow/mf_base.hpp:112-113 | more pushes extend each vertex's inbox by its share of them, in push order |
| MaxFlowBase.ArcLine | examples/max_flow/max_flow_base.cpp:24-27 | `a u v c` pushes (u − 1, c) to v − 1 and (v − 1, c) to u − 1 and nothing else |
| MaxFlowBase.ArcRecordedAtBothEnds | examples/max_flow/max_flow_base.cpp:26-27 | for u ≠ v each endpoint's inbox gains the other with capacity c |
| MaxFlowBase.BuildResCaps | examples/max_flow/max_flow_base.cpp:41 | `resCaps` has exactly the neighbours of the caps, each with the capacity of the first arc towards it, as map insert keeps an existing key |
| MaxFlowBase.LoadDimacsGraph | examples/max_flow/max_flow_base.cpp:10-48 | a parse error ends loading with that error; otherwise source and sink are the aggregator sums, the vertices are the keys pushed to, and each vertex's caps are its whole inbox with `resCaps` built as above |
| ReadDimacs.ReadIntShowInt | examples/read.cpp:18-23 | extraction reads back a written number, after a blank |
| ReadDimacs.AfterNewlineSkipsLine | examples/read.cpp:9 | `ignore` consumes exactly through the next newline |
| ReadDimacs.Resize | examples/read.cpp:20 | `resize(n)` gives n lists, keeps the old ones in range and adds empty ones |
| ReadDimacs.AddArc | examples/read.cpp:26 | `Graph[u].push_back(v)` appends v to list u and changes no other list or field |
| ReadDimacs.Run | examples/read.cpp:5-33 | the loop ends with the stream exhausted or the process stopped |
| ReadDimacs.DimacsReader.ReadDimacs | examples/read.cpp:3-34 | the graph, source, output and lock are those the reading loop leaves; the lock persists across calls |
| ReadDimacs.ProblemLine | examples/read.cpp:10-20 | `p max n m` prints the counts, sets the lock and gives exactly n lists keeping the old ones; a negative n stops the process |
| ReadDimacs.ProblemStepMax | examples/read.cpp:14-20 | after the type `max`, n and m are read, printed and the graph resized |
| ReadDimacs.SecondProblemLineFails | examples/read.cpp:11-13 | any problem line once the lock is set stops the process |
| ReadDimacs.ArcLine | examples/read.cpp:21-26 | `a u v c` appends v − 1 to the end of list u − 1 and changes no other list; the capacity is dropped; ids outside 1..n stop the process |
| ReadDimacs.ArcStepRead | examples/read.cpp:22-26 | after u, v and c are read the endpoint assertion decides between the append and stopping |
| ReadDimacs.NodeLine | examples/read.cpp:27-31 | `n s s` sets the source to s − 1; any other designator leaves it |
| ReadDimacs.CommentLine | examples/read.cpp:8-9 | a comment is consumed through its newline and changes nothing else |
| ReadDimacs.UnknownCharacter | examples/read.cpp:32 | an unknown character is reported and reading goes on with the next one |
| ReadDimacs.StepOn | examples/read.cpp:5-27 | the flag is the first character and the handler reads what follows it |
| ReadDimacs.RunWellFormed | examples/read.cpp:5-33 | reading from a well-formed state leaves adjacency lists whose targets are all vertices of the graph |
| ReadDimacs.ProblemStepGraph | examples/read.cpp:10-20 | a problem line sets the lock, and the graph it leaves is the old one or the old one resized |
| EkPredecessor.InitBfs | examples/max_flow/edmonds_karp_predecessor.cpp:21-29 | the source gets dist 0 and pre −1, every other vertex dist −1; the source offers (1, src) to each residual neighbour; one vertex is counted |
| EkPredecessor.InitShape | examples/max_flow/edmonds_karp_predecessor.cpp:21-29 | initialisation leaves the source as root of a tree of nothing else, and every pending offer well formed |
| EkPredecessor.VisitVertex | examples/max_flow/edmonds_karp_predecessor.cpp:36-48 | only an unreached vertex with messages settles, taking (dist, pre) of the combined message; a settled vertex other than the sink offers (dist + 1, id) to each residual neighbour; the sink sends nothing |
| EkPredecessor.SettleRound | examples/max_flow/edmonds_karp_predecessor.cpp:36-50 | one round applies the settle-once rule to every vertex; `visited` counts the newly settled, `dstVisited` says whether the sink was one, and the next inbox holds exactly their offers |
| EkPredecessor.RoundShape | examples/max_flow/edmonds_karp_predecessor.cpp:37-47 | a round keeps the tree of residual edges, each settled vertex one step further than its predecessor, and hands on well-formed offers |
| EkPredecessor.RoundProgress | examples/max_flow/edmonds_karp_predecessor.cpp:37-41 | a round settles only unreached vertices, which then stay settled; residual capacities do not change; a round settling nothing changes nothing |
| EkPredecessor.Search | examples/max_flow/edmonds_karp_predecessor.cpp:35-55 | the rounds end with the sink reached at distance ≥ 1, or with a round settling nothing (BFS then returns 0); the tree is kept and capacities are untouched |
| EkPredecessor.Path | examples/max_flow/edmonds_karp_predecessor.cpp:60-77 | the predecessor chain from a reached vertex leads back to the source, one distance step per hop, over residual edges |
| EkPredecessor.Backtrack | examples/max_flow/edmonds_karp_predecessor.cpp:59-77 | backtracking records each path vertex before the sink with its path successor, which is a residual neighbour, and no other vertex |
| EkPredecessor.PathNoDup | examples/max_flow/edmonds_karp_predecessor.cpp:60-77 | the predecessor path repeats no vertex |
| EkPredecessor.Bottleneck | examples/max_flow/edmonds_karp_predecessor.cpp:80-87 | `minCap` is at most INT_MAX, at most every recorded successor capacity, and INT_MAX or one of them |
| EkPredecessor.BottleneckIsPathMin | examples/max_flow/edmonds_karp_predecessor.cpp:80-87 | that `minCap` is the smallest capacity on the path |
| EkPredecessor.UpdateEdges | examples/max_flow/edmonds_karp_predecessor.cpp:90-100 | each recorded vertex raises `resCaps[pre]` (creating it) and lowers `resCaps[suc]` by `minCap`, erasing it at 0; other vertices are unchanged |
| EkPredecessor.PathIsAugmenting | examples/max_flow/edmonds_karp_predecessor.cpp:60-77 | the predecessor path to a reached sink is an augmenting path of the graph the search started from |
| EkPredecessor.CanUpdateEdges | examples/max_flow/edmonds_karp_predecessor.cpp:71-98 | the asserted lookups hold, and no capacity goes below 0 |
| EkPredecessor.UpdateIsAugmented | examples/max_flow/edmonds_karp_predecessor.cpp:90-100 | the update pushes `minCap` along the path: each path vertex but the sink exchanges capacity between predecessor and successor, all other vertices keep theirs |
| EkPredecessor.Bfs | examples/max_flow/edmonds_karp_predecessor.cpp:17-104 | `BFS` returns 0 and leaves the capacities, or returns the bottleneck of an augmenting path and pushes that flow along it |
| EkPredecessor.PushAlongPath | examples/max_flow/edmonds_karp_predecessor.cpp:59-103 | once the sink is reached, backtracking, `minCap` and the update push the path's bottleneck along it |
| EkPredecessor.BfsIsStep | examples/max_flow/edmonds_karp_predecessor.cpp:103 | each `BFS` result is one augmentation step |
| EkPredecessor.AugmentMore | examples/max_flow/edmonds_karp_predecessor.cpp:125-127 | one more pass of the loop after a positive result adds one augmentation and its result to `totFlow` |
| EkPredecessor.EdmondsKarp | examples/max_flow/edmonds_karp_predecessor.cpp:124-133 | the capacities are reached by a run of augmentation steps, `totFlow` is the sum of their results, all but the last are positive and the last is not (or the round bound is hit) |
| EkPrefix.InitBfs | examples/max_flow/edmonds_karp_prefix.cpp:21-28 | the source gets dist 0, every other vertex dist −1; the source offers (1, [src]) to each residual neighbour |
| EkPrefix.InitShape | examples/max_flow/edmonds_karp_prefix.cpp:21-28 | the first offers are well formed: distance equal to prefix length, prefix ending at a residual edge to the receiver |
| EkPrefix.Forward | examples/max_flow/edmonds_karp_prefix.cpp:64-69 | the message passed on is one step further and has the vertex appended to its prefix |
| EkPrefix.Notify | examples/max_flow/edmonds_karp_prefix.cpp:44-54 | the sink's three-case notification of a non-empty prefix p is `Notes` over p + [sink]: each vertex is told its path predecessor (−1 first) and successor (the sink last) |
| EkPrefix.NotifyStep | examples/max_flow/edmonds_karp_prefix.cpp:47-53 | each push in the notification extends the notes by the next vertex's (pre, suc) |
| EkPrefix.NotesAt | examples/max_flow/edmonds_karp_prefix.cpp:47-49 | along a path without repeats each prefix vertex gets exactly one notification, naming its neighbours, and no other id gets any |
| EkPrefix.VisitVertex | examples/max_flow/edmonds_karp_prefix.cpp:36-70 | only an unreached vertex with messages settles; a vertex other than the sink forwards the combined message to each residual neighbour; the sink notifies its prefix |
| EkPrefix.SettleExtends | examples/max_flow/edmonds_karp_prefix.cpp:64-68 | a vertex settling on a well-formed offer extends its prefix by itself |
| EkPrefix.SettleRound | examples/max_flow/edmonds_karp_prefix.cpp:35-72 | one round applies the rule to every vertex and counts the newly settled. The next inbox holds exactly the offers forwarded by newly settled non-sink vertices, each combined message one step further with the sender appended, sent to each residual neighbour. The offers are well formed, and once the sink settled its prefix notifications are recorded |
| EkPrefix.RoundProgress | examples/max_flow/edmonds_karp_prefix.cpp:36-41 | a round settles only unreached vertices, and they stay settled |
| EkPrefix.Search | examples/max_flow/edmonds_karp_prefix.cpp:34-77 | the rounds end with the sink settled and its notifications along a prefix path through settled vertices. Otherwise they end with well-formed pending offers of which no unreached vertex holds any, so the next round would settle nothing (BFS_pref returns 0) |
| EkPrefix.PrefixIsAugmenting | examples/max_flow/edmonds_karp_prefix.cpp:44-49 | a prefix of settled vertices ending at the sink is an augmenting path |
| EkPrefix.NotesReadable | examples/max_flow/edmonds_karp_prefix.cpp:84-89 | the `minCap` round's assertions hold: each vertex has at most one notification, naming a residual successor, exactly at the path vertices before the sink |
| EkPrefix.MinCapPass | examples/max_flow/edmonds_karp_prefix.cpp:83-93 | `locEdges` records each notified vertex's note, and `minCap` is at most INT_MAX, at most every successor capacity, and INT_MAX or one of them |
| EkPrefix.BottleneckIsPathMin | examples/max_flow/edmonds_karp_prefix.cpp:83-93 | that `minCap` is the smallest capacity on the path |
| EkPrefix.UpdateEdges | examples/max_flow/edmonds_karp_prefix.cpp:97-109 | each recorded vertex raises `resCaps[pre]` and lowers `resCaps[suc]` by `minCap`, erasing it at 0; other vertices are unchanged |
| EkPrefix.UpdateIsAugmented | examples/max_flow/edmonds_karp_prefix.cpp:97-109 | the update pushes `minCap` along the path |
| EkPrefix.Bfs | examples/max_flow/edmonds_karp_prefix.cpp:20-113 | `BFS_pref` returns 0 and leaves the capacities, or returns the bottleneck of an augmenting path and pushes that flow along it |
| EkPrefix.PushAlongPath | examples/max_flow/edmonds_karp_prefix.cpp:80-112 | once the sink settled, the `minCap` round and the update push the path's bottleneck along it |
| EkPrefix.BfsIsStep | examples/max_flow/edmonds_karp_prefix.cpp:112 | each `BFS_pref` result is one augmentation step |
| EkPrefix.AugmentMore | examples/max_flow/edmonds_karp_prefix.cpp:134-136 | one more pass of the loop adds one augmentation and its result to `totFlow` |
| EkPrefix.EdmondsKarp | examples/max_flow/edmonds_karp_prefix.cpp:133-141 | the capacities are reached by a run of augmentation steps, `totFlow` is the sum of their results, all but the last positive and the last not (or the round bound is hit) |
| Residual.MinOver | examples/max_flow/edmonds_karp_predecessor.cpp:13-15 | the min aggregator folded in any order: at most INT_MAX and every value, and INT_MAX or one of them |
| Residual.Raise | examples/max_flow/edmonds_karp_predecessor.cpp:94 | `resCaps[pre] += minCap` creates the entry at `minCap` if absent and changes no other entry |
| Residual.Augment | examples/max_flow/edmonds_karp_predecessor.cpp:94-99 | pre rises by `minCap`, suc drops by it and is erased exactly when it reaches 0, nothing else changes |
| Residual.AugmentConserves | examples/max_flow/edmonds_karp_predecessor.cpp:94-98 | with distinct neighbours and a bottleneck no larger than the forward capacity the assertion holds and the two capacities keep their sum |
| Residual.PathMinBounds | examples/max_flow/edmonds_karp_predecessor.cpp:80-87 | the bottleneck of a path is at most INT_MAX and every edge capacity, and is INT_MAX or one of them |
| Residual.PathMinIs | examples/max_flow/edmonds_karp_predecessor.cpp:80-87 | any value with those three properties is the bottleneck |
| Residual.CanUpdate | examples/max_flow/edmonds_karp_predecessor.cpp:96-98 | along an augmenting path avoiding −1, a flow no larger than every edge capacity passes the assertion at each path vertex |
| Residual.SumAppend | examples/max_flow/edmonds_karp_predecessor.cpp:127 | `totFlow += flow` adds to the sum of results |
| Inboxes.Send | examples/max_flow/push_relabel.cpp:29 | a push appends the message to the destination's inbox and no other |
| Inboxes.PushAll | examples/max_flow/edmonds_karp_predecessor.cpp:26 | pushing to every key of a map, in any order, gives each of them the message once and nobody else |
| PushRelabel.InitVertex | examples/max_flow/push_relabel.cpp:23-38 | excess 0; the source gets height vNum and every out-edge saturated and pushed with height vNum, other vertices height 0 and empty flows; one preflow per neighbour, from the first entry naming it |
| PushRelabel.InitPreflow | examples/max_flow/push_relabel.cpp:23-39 | every loaded vertex is initialised that way, and `updated` counts the source |
| PushRelabel.InitBalanced | examples/max_flow/push_relabel.cpp:33-37 | a vertex other than the source starts with excess equal to its net inflow, 0 |
| PushRelabel.InitFeasible | examples/max_flow/push_relabel.cpp:24-37 | with non-negative capacities every initialised vertex has no flow above capacity and non-negative excess |
| PushRelabel.AddInflows | examples/max_flow/push_relabel.cpp:46-47 | the excess grows by the sum of the inflow values |
| PushRelabel.RecordInflow | examples/max_flow/push_relabel.cpp:53-59 | an inflow x from w lowers w's flow by x and records w's height, or creates w's entry with capacity 0 and flow −x; no other entry changes |
| PushRelabel.RecordInflows | examples/max_flow/push_relabel.cpp:52-60 | after all inflows each sender has an entry whose flow dropped by all it sent, with the height of its last message, and the net outflow dropped by the inflow sum |
| PushRelabel.RecordNetOut | examples/max_flow/push_relabel.cpp:56-59 | one inflow lowers the net outflow by its value |
| PushRelabel.ApplyHeights | examples/max_flow/push_relabel.cpp:61-65 | each height sender's entry takes the height of its last message; flows do not change |
| PushRelabel.AbsorbedBoth | examples/max_flow/push_relabel.cpp:52-65 | the two message loops together give the closed-form absorbed preflows |
| PushRelabel.PushOut | examples/max_flow/push_relabel.cpp:70-80 | pushes go only to strictly lower neighbours, nonzero and within residual capacity; the excess drops, and the net outflow rises, by the total pushed; a feasible start keeps the excess ≥ 0, every amount positive and saturating unless the excess ran out, and all lower edges saturated while excess remains |
| PushRelabel.PushStep | examples/max_flow/push_relabel.cpp:73-79 | one push keeps the push loop's invariant |
| PushRelabel.SendFlows | examples/max_flow/push_relabel.cpp:97-99 | each pushed neighbour receives (v, amount, height) once, and no one else receives anything |
| PushRelabel.Discharge | examples/max_flow/push_relabel.cpp:70-105 | push; with excess left the height becomes 1 + the minimum height over residual edges (INT_MAX with none) and heights go only to neighbours pushed to; otherwise the height is unchanged and no height is sent |
| PushRelabel.Step | examples/max_flow/push_relabel.cpp:44-106 | the source and sink only add their inflows to the excess; any other vertex absorbs, reports `updated` exactly when its excess after absorbing is positive, and discharges as above |
| PushRelabel.AbsorbedFeasible | examples/max_flow/push_relabel.cpp:52-60 | receiving non-negative flows keeps a feasible vertex feasible |
| PushRelabel.StepKeeps | examples/max_flow/push_relabel.cpp:44-106 | a step keeps a feasible, balanced vertex feasible and balanced, and one that relabels has a residual edge, so its new height is at most one more than a neighbour's |

## Left out

- The mailbox transport is left out. This covers `recv`, `poll_with_timeout` and the test-only drain `prepare_messages_test` (core/channel/async_push_channel.hpp:59-66). They are blocking I/O with a wall-clock timeout. The mailbox is only a log of what was sent.
- The byte layout of `BinStream` is left out. A stream is a sequence of (key, message) records with integer keys.
- The channel base class, `hash_ring`, the worker topology and the object list are not part of this model beyond their contracts:
  - the topology is a table of global ids per process;
  - the object list is a sequence of keys with `find`, `index_of` and `add_object`.
- The guard `if (send_buffer_.size() == 0) continue` at core/channel/async_push_channel.hpp:50 is not modelled. It cannot fire inside the loop.
- The framework runtime is not modelled:
  - `list_execute` scheduling;
  - aggregator synchronisation;
  - `globalize`;
  - `load` with its HDFS input format.

  The lambdas run on every vertex of a map in an arbitrary order. Aggregators are sums or minimums. The input is a sequence of line chunks.
- `unordered_map` iteration order is arbitrary (`:|` choice), so the contracts state only order-independent facts.
- PushRelabel.PushOut: which neighbour receives a partial push depends on map order. The contract therefore states that every amount saturates its edge unless the excess ran out. It does not pin down the order.
- Vertex ids are unbounded integers. Several things are therefore not modelled:
  - 32-bit overflow of sums, capacities and heights;
  - `std::out_of_range` from `stoi`;
  - the `assert(v.height != INT_MAX)` at examples/max_flow/push_relabel.cpp:92.
  PushRelabel.StepKeeps shows instead that, from a feasible balanced vertex, a relabel always finds a residual edge. So the `INT_MAX + 1` height does not arise.
- The push–relabel main loop (examples/max_flow/push_relabel.cpp:43-109) is not modelled: only the initial round and one vertex's step are. Its termination and the maximality of the final flow are not proved.
- EkPredecessor.EdmondsKarp, EkPrefix.EdmondsKarp: the do-while loop has no bound in the source. The model bounds it by `maxRounds` augmentations and states both ways of stopping. Termination of the augmentation loop is not proved.
- Shortest-path optimality of the breadth-first search is not proved, and neither is the completeness of "round settles nothing ⇒ no augmenting path". Only the soundness of what each search returns is proved.
- EkPredecessor.Bfs, EkPrefix.Bfs, EkPredecessor.EdmondsKarp, EkPrefix.EdmondsKarp: these require that no vertex has id −1, the "no predecessor" mark. That holds for DIMACS ids, which are at least 1 before 0-basing.
- Messages to ids that are not vertices are not modelled. The framework would create such a vertex; the model leaves the message unread. The residual update creates an entry for id −1 at the source (`resCaps[pre] +=` with pre −1). The next search then offers a message to −1.
- Channels.FastAsyncPushChannel.constructor: this requires that the topology covers the send buffers and that the object table has no duplicate key. In the source the runtime attaches the worker information and the object list keeps its own keys unique; neither is part of this model, so the model takes both as given when the channel is built.
- EkPrefix.MinCapPass: this requires the source's own assertions, at most one notification per vertex and an existing successor entry (examples/max_flow/edmonds_karp_prefix.cpp:86,89). EkPrefix.NotesReadable proves that they hold after a search.
- PushRelabel.ApplyHeights: this requires every height sender to have an entry, since the source dereferences the `find` result unchecked (examples/max_flow/push_relabel.cpp:63-64).
- PushRelabel.InitVertex: a loaded vertex starts with empty preflows, as `LoadDIMAXCSGraph` leaves them.
- ReadDimacs: a failed extraction (`in >> x` on malformed text) ends reading. The failure state of the stream and what the loop would do afterwards are not modelled.
- A chunk with no token, a missing field, or a failed `stoi` ends loading with an error. In the source these are undefined behaviour or an uncaught exception.
- Logging is not modelled: timers, `log_msg`, `cout` and `cerr`. The exception is the messages that are a line's only effect, which are kept as reports:
  - "invalid line" and "unknown input flag" in the two loaders;
  - the node-count line and "unknown input flag" in `ReadDIMACS`.
- examples/max_flow/max_flow_base.hpp is not part of this model. Its `KeyMinCombiner` is the same as the one in examples/max_flow/mf_base.hpp:73-76.
- The other examples are not part of this model. They are Boost wrappers, job bootstrap, or code duplicating what is modelled: bfs.cpp, mf_boost.cpp, edmonds_karp_eg.cpp, edmonds_karp_boost.cpp, mf_husky.cpp, trial.cpp and edmonds_karp_husky.cpp.
