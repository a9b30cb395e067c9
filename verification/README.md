# Verified model of the gossip module

A Dafny 4.11 model of the gossip node's state and protocols, with proofs. `dafny verify dfyconfig.toml` checks all of it.
Objects that the Go code changes in place are classes here; each of their methods is proved against a function on values,
and the theorems over whole runs are about those functions.

| file | what it models |
|---|---|
| `Basics.dfy`, `Bytes.dfy` | Go's fixed-width integers, big-endian encodings |
| `RingView.dfy`, `RingBuffer.dfy` | the ring buffer on linked `container/ring` nodes, and its sequence view |
| `Cookies.dfy` | the cookie codec and its encryption |
| `ProofOfWork.dfy` | work items, the check, the 32 search workers as a step system |
| `Connections.dfy`, `ConnectionManager.dfy` | the three maps and the slice of connections: as values, and as the object |
| `Strategy.dfy`, `Inputs.dfy` | one node as a state machine over the events of its loop, and the runs that a series of inputs leads to |
| `DummyStrat.dfy` | the same loop on three ring buffers and the connection manager: each branch, and whole runs |
| `Handshake.dfy`, `Messages.dfy` | what holds over whole runs of a node |
| `Sessions.dfy` | each connection as an automaton of its own, what is sent and why, and exchanges between two nodes |
| `Network.dfy`, `Copies.dfy`, `Dissemination.dfy`, `Spreading.dfy` | a network of nodes with pushes in flight, the history of each copy and its hop bound, termination, and whom a message can reach |
| `Distances.dfy` | the breadth-first search that records distances when nodes leave the queue |
| `VerticalTypes.dfy`, `VerticalApi.dfy` | the packets of the vertical API, its read loop and its write loop |
| `Registry.dfy` | which connections are notified of which type |
| `PacketCounter.dfy`, `Windows.dfy` | the packet counters and adding up what they logged, and what that says about windows of time |

## What the code does that its documentation does not say

- A TTL of 0 does not mean "no limit" (`reports/02-midterm/figures/hzMsgs_push.tex:6`). The decrement wraps to 255, so 0
  stands for 256 hops; `Network.Rank` says so and every hop bound uses it.
- A ring buffer of capacity 0 or 1 holds two values: unlinking the successor of a one-node ring changes nothing
  (`RingView.CapacityRespected` gives the exact condition), and it forgets both when one is removed. The ring is modelled
  for every capacity; a message can then be notified twice while the node has neither evicted nor rejected it, exactly if
  the cache size is below two (`Messages.NotifiedAgainOnlyIfForgotten`).
- Removing the newest value of a ring makes the oldest one the newest, so evictions then come in a rotated order
  (`RingView.RemovedOrder`).
- The search for distances is one too large for some nodes unless the part of the graph that the start reaches is
  two-colourable; this is an if-and-only-if in the contract of `Distances.CalcDistances`.
- An announce or a notification whose size does not fit 16 bits is printed with a size cut to 16 bits, and the printers
  leave reserved fields as the reused buffer held them: `VerticalApi.RoundTripIff` and `VerticalApi.WrittenStreamSplitsIff`
  give the exact conditions for reading back.
- A frame whose size is below its header's four bytes makes `slices.Grow` panic; `VerticalApi.VerticalApi.HandleConnection`
  returns whether that happened.

## Assumptions

- A connection id (a remote TCP address) is not used again in a run (`Trace.FreshIds`).
- The cipher decrypts what it encrypted (`Aead.Correct`), and, where a proof says so, opens nothing else (`Trace.NoForgery`).
- SHA-256 is an arbitrary function to 32 bytes; a random permutation, nonce or id is an arbitrary one, part of the event.
- Timestamps are whole nanoseconds since an epoch; a node's clock never goes back.

## Model

| member | source | states |
|---|---|---|
| RingView.InsertedIsQueue | gossip/internal/ringbuffer/ringbuffer.go:58-76 | an insertion appends to the chronological order, and drops the oldest value exactly when the ring is full |
| RingView.InsertedConserves | gossip/internal/ringbuffer/ringbuffer.go:58-76 | the values after an insertion, with the evicted one, are the values before and the new one |
| RingView.HistoryBound | gossip/internal/ringbuffer/ringbuffer.go:58-76 | a ring that has only seen insertions holds exactly the last min(k, capacity) of its k values, in order |
| RingView.HoldsTheLast | gossip/internal/ringbuffer/ringbuffer.go:58-76 | the same, place by place: how many values are left after insertions and which one each node holds |
| RingView.CapacityRespected | gossip/internal/ringbuffer/ringbuffer.go:65-69 | no run of insertions exceeds the capacity if and only if it is at least two |
| RingView.RemovedOrder | gossip/internal/ringbuffer/ringbuffer.go:81-103 | removing the newest value rotates the order, removing any other keeps it |
| RingView.RemovedKeepsRest | gossip/internal/ringbuffer/ringbuffer.go:81-103 | removal takes out one equal value and keeps all others, or changes nothing if there is none; below a capacity of two it loses all |
| RingBuffer.Ring.Link | gossip/internal/ringbuffer/ringbuffer.go:72 | which pointers linking two nodes sets, in one ring or across two |
| RingBuffer.Ring.UnlinkOne | gossip/internal/ringbuffer/ringbuffer.go:67 | unlinking takes the successor out and leaves a well-formed circle; a one-node circle stays |
| RingBuffer.RotatedCircular | gossip/internal/ringbuffer/ringbuffer.go:114 | a circle of nodes is a circle from each of its nodes |
| RingBuffer.Ringbuffer.constructor | gossip/internal/ringbuffer/ringbuffer.go:47-53 | a new ring is empty and well formed |
| RingBuffer.Ringbuffer.Insert | gossip/internal/ringbuffer/ringbuffer.go:58-76 | the nodes stay one doubly linked circle, and its view changes as the sequence function says, for every capacity |
| RingBuffer.Ringbuffer.Remove | gossip/internal/ringbuffer/ringbuffer.go:81-103 | the same for removal of the first equal value; the error is reported exactly when there is none |
| RingBuffer.Ringbuffer.Do | gossip/internal/ringbuffer/ringbuffer.go:107-116 | the function is applied to exactly the view, in order |
| RingBuffer.Ringbuffer.Filter | gossip/internal/ringbuffer/ringbuffer.go:120-136 | exactly the values of the view on which f holds, in order |
| RingBuffer.Ringbuffer.FindFirst | gossip/internal/ringbuffer/ringbuffer.go:139-156 | the first value of the view on which f holds; the error exactly if there is none |
| RingBuffer.Ringbuffer.ExtractToSlice | gossip/internal/ringbuffer/ringbuffer.go:158-164 | the slice is the view |
| Cookies.ParsesBack | gossip/strats/cookie.go:57-93 | unmarshalling a marshalled cookie gives back every field, for every int64 timestamp |
| Cookies.PrintsBack | gossip/strats/cookie.go:57-93 | marshalling an unmarshalled cookie gives back the bytes |
| Cookies.ConnCookie.Marshal | gossip/strats/cookie.go:57-73 | the bytes are timestamp, challenge and destination, in that layout |
| Cookies.ConnCookie.Unmarshal | gossip/strats/cookie.go:77-93 | the object's fields become those the layout gives for the bytes |
| Cookies.Create | gossip/strats/cookie.go:96-103 | a cookie is its challenge followed by the encryption of its marshalling |
| Cookies.Read | gossip/strats/cookie.go:124-136 | reading decrypts and unmarshals, and fails exactly when decryption does |
| Cookies.ReadsBackCreated | gossip/strats/cookie.go:96-136 | reading a created cookie gives back its challenge, timestamp and destination |
| Cookies.CookieLayout | gossip/strats/cookie.go:57-103 | the bytes of a created cookie, position by position: challenge, then the encryption of big-endian time, challenge and destination |
| ProofOfWork.PowMarsh.Marshal | gossip/strats/main.go:118-131 | the work item is the cookie followed by the big-endian nonce |
| ProofOfWork.PowMarsh.SetNonce | gossip/strats/main.go:139-141 | the nonce is replaced, and nothing else |
| ProofOfWork.PowMarsh.AddToNonce | gossip/strats/main.go:143-145 | the nonce is increased modulo 2^64 |
| ProofOfWork.PowMarsh.PrefixLen | gossip/strats/main.go:155-157 | the prefix length is that of the item's layout |
| ProofOfWork.PowMarsh.Clone | gossip/strats/main.go:165-170 | a clone is a fresh object with the same item and nonce |
| ProofOfWork.CheckWork | gossip/pow/pow.go:181-185 | the check is the predicate on the hash of the marshalling without its skipped part |
| ProofOfWork.NoncesPartitioned | gossip/pow/pow.go:126-144 | every uint64 is tried by exactly one worker in exactly one of its first 2^59 turns |
| ProofOfWork.RestoredStateHashesAll | gossip/pow/pow.go:133-150 | restoring the saved prefix state and writing the nonce hashes the whole stripped marshalling |
| ProofOfWork.StepKeepsInv | gossip/pow/pow.go:121-168 | every step of a worker or the caller keeps: saved states are the prefix, an offered nonce solves, earlier ones of the worker do not |
| ProofOfWork.ResultSolves | gossip/pow/pow.go:121-168 | in every run a result solves the problem, and no earlier nonce of the same worker does |
| ProofOfWork.OneResult | gossip/pow/pow.go:153-167 | a received result never changes: at most one value is received |
| ProofOfWork.WorkersExit | gossip/pow/pow.go:143-167 | in every run, once the context is done the workers make at most two moves each; each step of a running one is such a move, so none can block; when all have stopped the caller returns what it received |
| ProofOfWork.ComputedPasses | gossip/strats/cookie.go:108-119 | every nonce that ComputePoW can return passes CheckProofOfWork |
| ProofOfWork.ComputedIff | gossip/pow/pow.go:121-168 | some interleaving of the workers returns a nonce if and only if its hash starts with a zero byte and no smaller nonce with the same remainder by 32 has such a hash |
| ConnectionManager.SwapRemovedAgrees | gossip/strats/connection_manager.go:170-179 | deleting from the map and swap-removing from the slice keeps the two in agreement, pointer for pointer |
| ConnectionManager.SwapRemovedAllDrops | gossip/strats/connection_manager.go:228-232 | swap-removal in descending index order drops exactly the marked connections; stated for every suffix of the loop |
| ConnectionManager.CulledSlice | gossip/strats/connection_manager.go:219-232 | after the whole loop the slice has exactly the connections on which f is false, each once |
| ConnectionManager.ConnectionManager.constructor | gossip/strats/connection_manager.go:60-71 | the given connections are to be proved, nothing else is known |
| ConnectionManager.ConnectionManager.FindToBeProved | gossip/strats/connection_manager.go:110-116 | finds exactly the connections to be proved |
| ConnectionManager.ConnectionManager.FindInProgress | gossip/strats/connection_manager.go:120-126 | finds exactly the connections in progress |
| ConnectionManager.ConnectionManager.FindValid | gossip/strats/connection_manager.go:130-136 | finds exactly the open connections |
| ConnectionManager.ConnectionManager.Remove | gossip/strats/connection_manager.go:143-183 | takes the id out of the first map that has it, keeps map and slice in agreement, and returns the removed object or the error |
| ConnectionManager.ConnectionManager.MakeValid | gossip/strats/connection_manager.go:186-204 | gives an open connection the timestamp, opens a known one with it, ignores an unknown one |
| ConnectionManager.ConnectionManager.AddInProgress | gossip/strats/connection_manager.go:207-212 | adds the connection to those in progress and to nothing else |
| ConnectionManager.ConnectionManager.MarkRequested | gossip/strats/dummy.go:372-377 | marks every open connection, in slice order, and no other |
| ConnectionManager.ConnectionManager.CullConnections | gossip/strats/connection_manager.go:215-234 | leaves exactly the open connections on which f is false, in the map and, as a permutation, in the slice |
| ConnectionManager.ConnectionManager.ActionOnPermutedValid | gossip/strats/connection_manager.go:95-106 | visits min(max, open) pairwise distinct open connections |
| Connections.MakeValidAddsNothing | gossip/strats/connection_manager.go:186-204 | making an id valid introduces no new id and keeps the three maps disjoint |
| Connections.RemoveAddsNothing | gossip/strats/connection_manager.go:152-183 | removing introduces no new id and keeps the three maps disjoint |
| DummyStrat.DummyStrat.constructor | gossip/strats/dummy.go:76-96 | a new object has the given manager, empty buffers and no jobs: the start of a run |
| DummyStrat.DummyStrat.Listen | gossip/strats/dummy.go:102-388 | over every series of inputs that bring fresh ids, the loop on the real state goes through the states of a run of the state machine, with the outputs of its steps |
| Inputs.RunHasInputs | gossip/strats/dummy.go:102-388 | every run of the state machine with fresh ids comes from a series of inputs that Listen can be given |
| DummyStrat.DummyStrat.Handle | gossip/strats/dummy.go:118-386 | one turn of the loop or the end of a job, on the real state, is one step; what it may change next is what it might change before or is new |
| DummyStrat.DummyStrat.OnPush | gossip/strats/dummy.go:129-149 | on the real buffers, a push changes state and output as the state machine's step does |
| DummyStrat.DummyStrat.OnAnnounce | gossip/strats/dummy.go:332-336 | an announce is the state machine's step |
| DummyStrat.DummyStrat.OnValidation | gossip/strats/dummy.go:337-355 | a validation, with the TTL changed in place in a shared object, is the state machine's step |
| DummyStrat.DummyStrat.OnGossipTick | gossip/strats/dummy.go:358-370 | the tick's loop of sends, removals and insertions is the state machine's step, for every choice of permutations |
| DummyStrat.DummyStrat.OnUnregister | gossip/strats/dummy.go:122-127 | removes the connection and closes it exactly if it was known |
| DummyStrat.DummyStrat.OnNewConn | gossip/strats/dummy.go:321-326 | a new connection is in progress |
| DummyStrat.DummyStrat.OnConnReq | gossip/strats/dummy.go:151-167 | only a connection in progress gets a challenge |
| DummyStrat.DummyStrat.OnConnChall | gossip/strats/dummy.go:169-188 | only a connection to be proved starts a job; any other is removed |
| DummyStrat.DummyStrat.OnConnJobDone | gossip/strats/dummy.go:178-188 | the end of a handshake job is the state machine's step, whatever happened since it started |
| DummyStrat.DummyStrat.OnConnPoW | gossip/strats/dummy.go:191-235 | opens the connection if the four checks pass, in the source's order, and removes it if not |
| DummyStrat.DummyStrat.OnPowReq | gossip/strats/dummy.go:237-252 | only an open connection gets a renewal challenge |
| DummyStrat.DummyStrat.OnPowChall | gossip/strats/dummy.go:254-281 | an open connection that was asked starts a job; any other is removed |
| DummyStrat.DummyStrat.OnRenewJobDone | gossip/strats/dummy.go:271-281 | the end of a renewal job is the state machine's step |
| DummyStrat.DummyStrat.OnPowPoW | gossip/strats/dummy.go:283-319 | a renewed proof stamps the connection with the cookie's time; failure of a check removes it |
| DummyStrat.DummyStrat.OnRenewalTick | gossip/strats/dummy.go:372-377 | asks every open peer once |
| DummyStrat.DummyStrat.OnTimeoutTick | gossip/strats/dummy.go:379-394 | closes exactly the open peers whose timestamp is POW_TIMEOUT old or older |
| DummyStrat.DummyStrat.CheckProof | gossip/strats/dummy.go:199-224 | a cookie is returned exactly if decryption, hash and destination are right |
| DummyStrat.DummyStrat.FindFirstMessage | gossip/strats/dummy.go:396-403 | the first stored message with the id, which is also the first with its value |
| Handshake.AlwaysDisjoint | gossip/strats/dummy.go:102-388 | in every run the three sets of ids stay disjoint |
| Handshake.RemovedStaysOut | gossip/strats/dummy.go:178-188 | once removed, an id stays out of all sets, even if its pending job ends later |
| Handshake.NeverBackFromOpen | gossip/strats/dummy.go:151-235 | an id that was open is never again in progress or to be proved |
| Handshake.HowItOpens | gossip/strats/dummy.go:169-235 | a connection opens only by a checked ConnPoW or by the end of its own job |
| Handshake.AcceptedOnlyAfterProof | gossip/strats/dummy.go:151-235 | an accepted connection is open only after this node made a cookie for its request and that very cookie came back and passed all checks |
| Handshake.OutgoingOnlyAfterChallenge | gossip/strats/dummy.go:169-188 | an outgoing connection is open only after a ConnChall came on it and the job this started ended |
| Handshake.IssuedBefore | gossip/strats/dummy.go:151-252 | every cookie of the node answers an earlier request of its destination |
| Handshake.FreshAtLastCull | gossip/strats/dummy.go:379-394 | an open peer's best timestamp is at most POW_TIMEOUT older than the last timeout tick |
| Handshake.OpenPeersAreFresh | gossip/strats/dummy.go:379-394 | with ticks at most POW_TIMEOUT apart, every open peer was given a timestamp at most 2 * POW_TIMEOUT old |
| Handshake.HonestHandshakeCompletes | gossip/strats/dummy.go:151-235 | in every run, a peer still in progress that returns its cookie with any computed nonce is opened with the cookie's timestamp if it is in time and removed if not, whatever the other connections did meanwhile |
| Sessions.ProofMeans | gossip/strats/dummy.go:199-224 | the check of a proof on bytes: the cookie decrypts, its last bytes are the sender's id, the hash of cookie and nonce starts with a zero byte |
| Sessions.EachAlone | gossip/strats/dummy.go:118-388 | in every run each connection follows an automaton of its own, whatever happens to the others |
| Sessions.StaysInProgress | gossip/strats/dummy.go:321-326 | a new connection is in progress, and stays so unchanged until a message of its own moves it |
| Sessions.HonestPeerConnects | gossip/strats/dummy.go:151-235 | from its NewConn on, a peer that asks for a cookie and returns it with a computed nonce gets its cookie, and is opened with its time if the answer comes within seven seconds, and removed if not |
| Sessions.StaysToBeProved | gossip/strats/connection_manager.go:60-71 | a neighbour is to be proved until a message of its own moves it |
| Sessions.HonestNeighbourOpens | gossip/strats/dummy.go:169-188 | a neighbour whose only message is a challenge is sent the proof when the job ends, and is open from then on |
| Sessions.TheyConnect | gossip/strats/dummy.go:151-235 | the whole handshake of two nodes, with the messages that each sends and the state it leaves at both |
| Sessions.JobsConserved | gossip/strats/dummy.go:178-281 | every expected challenge starts exactly one job, and every job ends at most once |
| Sessions.HonestRenewal | gossip/strats/dummy.go:237-319 | an open peer that asks for a renewal and returns its cookie with a computed nonce is open with the time of its request |
| Sessions.RenewalKeptIff | gossip/strats/dummy.go:283-319 | a renewed proof keeps its connection if and only if it is open and the proof passes; otherwise the id is in no map |
| Sessions.ChallengeWhenAsked | gossip/strats/dummy.go:254-281 | a renewal challenge keeps its connection and starts a job if and only if it was asked for |
| Sessions.RenewalJobEnds | gossip/strats/dummy.go:271-281 | the end of a renewal job sends its proof, and the next challenge has to be asked for again |
| Sessions.TheyRenew | gossip/strats/dummy.go:237-377 | a whole renewal between two nodes, from the tick that asks to the new timestamp |
| Sessions.TickClosesExactly | gossip/strats/dummy.go:379-394 | a timeout tick closes exactly the open connections at least seven seconds old, and leaves all others as they are |
| Sessions.StaysOpenIff | gossip/strats/dummy.go:118-388 | an open connection stays open if and only if no event gives one of the reasons to close it; closed, it is gone |
| Sessions.SentIff | gossip/strats/dummy.go:118-377 | a node sends a message, a notification or a close if and only if the event that takes place is the reason for it |
| Sessions.IssuedIffSent | gossip/strats/dummy.go:151-252 | the cookies counted as the node's own are exactly those that it has sent in a challenge |
| Sessions.SentOnce | gossip/strats/dummy.go:118-377 | it sends at most one thing at a time except at the two ticks, and asks each peer once at a renewal tick |
| Sessions.ClosedOnce | gossip/strats/dummy.go:122-127 | in every run a connection is closed at most once |
| Sessions.PeerCanConnect | gossip/strats/dummy.go:151-235 | every run can go on with the handshake of a new peer, and then has it open |
| Sessions.NeighbourCanConnect | gossip/strats/dummy.go:169-188 | every run can go on with the challenge of a neighbour to be proved, and then has it open |
| Sessions.PeerCanRenew | gossip/strats/dummy.go:237-319 | every run can go on with the renewal of an open peer, and then has it open with the new time |
| Sessions.RenewalCanHappen | gossip/strats/dummy.go:254-377 | every run can go on with asking for a renewal, the challenge and the end of its job |
| Messages.StepConserves | gossip/strats/dummy.go:129-370 | per id, the slots of the three buffers change only by what is added, evicted, rejected or, with a cache size below two, lost |
| Messages.AtMostOneNotificationWhileRemembered | gossip/strats/dummy.go:129-149 | between two notifications of an id, an entry with it was evicted from a full buffer, rejected or, only with a cache size below two, lost |
| Messages.NotifiedAgainOnlyIfForgotten | gossip/strats/dummy.go:129-149 | in every run an id is notified again only after it was evicted or rejected, if and only if the cache size is at least two |
| Messages.SmallCacheRun | gossip/strats/dummy.go:129-355 | a run with a smaller cache in which an id is notified twice although it was neither evicted nor rejected |
| Messages.KnownUntilForgotten | gossip/strats/dummy.go:129-370 | a known id becomes unknown only in a step that evicts, rejects or, with a cache size below two, loses it |
| Messages.OneSlotPerId | gossip/strats/dummy.go:129-370 | if announced ids are fresh, no id ever takes two slots |
| Messages.SentIsRecentHistory | gossip/strats/dummy.go:346-370 | sentMessages holds exactly the last insertions up to its capacity, over any run |
| Messages.SentSuppressesPushes | gossip/strats/dummy.go:138-149 | a sent message suppresses pushes with its id until capacity many later insertions |
| Messages.TickSendsToChosen | gossip/strats/dummy.go:358-370 | a tick sends the m-th drained message to the m-th chosen peers, min(degree, open) of them, and empties the buffer |
| Network.Rank | gossip/strats/dummy.go:347-350 | the hops a TTL stands for are at least one and agree with it modulo 256 |
| Network.DecrementUsesOneHop | gossip/strats/dummy.go:350 | the wrapping decrement lowers the rank by exactly one unless the TTL is one |
| Copies.ActErases | gossip/strats/dummy.go:129-370 | a step of the network in which each copy carries its announcement and its path is, without these histories, the step of the network |
| Copies.ActKeepsHops | gossip/strats/dummy.go:332-370 | every step keeps: each copy's path is a walk from its own announcer to where it is, and its TTL has been counted down along that path |
| Copies.CopyCarriesItsHops | gossip/strats/dummy.go:332-370 | in every run of any network, each push in flight or waiting is the message of one earlier Announce event, came over the h links of its own path from where that happened, and carries the event's TTL minus (h - 1) modulo 256; h is at most that TTL, of which 0 means 256 |
| Copies.StoredWithinRank | gossip/strats/dummy.go:332-370 | whatever a node stores was announced with this id, type and data, at a node no farther than the announced TTL |
| Copies.NotifiedWasAnnounced | gossip/strats/dummy.go:129-149 | whatever a node notifies was announced with this id, type and data, at a node no farther than the announced TTL |
| Dissemination.DeliveredWeighsLess | gossip/strats/dummy.go:129-149 | taking in a copy weighs less than the copy in flight did, whatever the buffers forget |
| Dissemination.ValidatedWeighsLess | gossip/strats/dummy.go:337-355 | settling a waiting message lowers the node's weight |
| Dissemination.TickSendsLess | gossip/strats/dummy.go:358-370 | the copies a tick puts in flight weigh less than the messages it drains |
| Dissemination.WeightFalls | gossip/strats/dummy.go:129-370 | without announcements the weight never grows, and falls on every step that consumes, settles or sends a message |
| Dissemination.DisseminationEnds | gossip/strats/dummy.go:129-370 | any run without announcements has at most as many such steps as the weight it starts with |
| Dissemination.OneMessageEnds | gossip/strats/dummy.go:129-370 | the same for one announced message, with the bound in closed form in its hops and the degree |
| Spreading.FliesIff | gossip/strats/dummy.go:358-370 | each push sent to a linked peer is in flight to it, and nothing else is |
| Spreading.GetsTo | gossip/strats/dummy.go:129-370 | along any path of open connections a run takes the message to each node within its TTL, which notifies it as announced |
| Spreading.ReachedIff | gossip/strats/dummy.go:129-370 | where the links are open connections, some run makes another node notify an announced message if and only if a walk of at most TTL links leads there, a TTL of 0 meaning 256 |
| Distances.TwoColourableIffNoLevelEdge | gossip/internal/testutils/cfg.go:82-120 | two-colourability of the reached part, loops aside, is the absence of an edge inside a level |
| Distances.HeadIsExact | gossip/internal/testutils/cfg.go:91-96 | a node first leaves the queue with its true distance |
| Distances.TurnKeepsAll | gossip/internal/testutils/cfg.go:92-109 | what every turn of the loop keeps about queue and distances |
| Distances.TurnMakesProgress | gossip/internal/testutils/cfg.go:92-109 | each turn visits a new node or brings the first unvisited queue entry nearer: the loop ends |
| Distances.CalcDistances | gossip/internal/testutils/cfg.go:82-120 | reachable nodes get their distance or one more, unreachable listed ones the largest uint; all exact if and only if two-colourable |
| Distances.NeighbourLists | gossip/internal/testutils/cfg.go:85-89 | the adjacency lists list exactly the neighbours |
| VerticalTypes.HeaderRoundTrip | gossip/verticalAPI/types/messageHdr.go:34-60 | a printed header parses to itself, whatever follows |
| VerticalTypes.GossipAnnounce.Unmarshal | gossip/verticalAPI/types/gossip_announce.go:37-63 | the fields and errors the layout gives; the data ends at the header's size or the buffer's end |
| VerticalTypes.GossipAnnounce.Marshal | gossip/verticalAPI/types/gossip_announce.go:66-92 | prints the layout into the reused buffer; the reserved byte is what the buffer held |
| VerticalTypes.GossipNotify.Unmarshal | gossip/verticalAPI/types/gossip_notify.go:37-55 | the fields and errors the layout gives |
| VerticalTypes.GossipNotify.Marshal | gossip/verticalAPI/types/gossip_notify.go:58-79 | prints the layout; the reserved bytes are what the buffer held |
| VerticalTypes.GossipValidation.Unmarshal | gossip/verticalAPI/types/gossip_validation.go:37-59 | the fields and errors the layout gives; the flag is the bitfield's lowest bit |
| VerticalTypes.GossipValidation.Marshal | gossip/verticalAPI/types/gossip_validation.go:62-83 | prints the layout |
| VerticalTypes.GossipNotification.Unmarshal | gossip/verticalAPI/types/gossip_notification.go:37-59 | the fields and errors the layout gives |
| VerticalTypes.GossipNotification.Marshal | gossip/verticalAPI/types/gossip_notification.go:64-88 | overwrites every byte: nothing of an earlier message is left |
| VerticalTypes.GossipNotification.RecalcSize | gossip/verticalAPI/types/messageHdr.go:67-69 | the size is cut to 16 bits |
| VerticalApi.Connection.ReadFull | gossip/verticalAPI/verticalApi.go:169-197 | fills the buffer's rest from the stream, or takes all there is and tells an end from an early end |
| VerticalApi.VerticalApi.Deliver | gossip/verticalAPI/verticalApi.go:212-252 | sends the packet that the frame means, or nothing for an unknown type or a frame too short |
| VerticalApi.VerticalApi.HandleConnection | gossip/verticalAPI/verticalApi.go:140-254 | for every byte stream, the loop over one reused buffer sends exactly the packets of its frames in order and then unregisters; it panics exactly if it comes to a size below four |
| VerticalApi.VerticalApi.WriteToConnection | gossip/verticalAPI/verticalApi.go:259-300 | what is written is the concatenation of the printed notifications, though one buffer is reused |
| VerticalApi.FramesAreFound | gossip/verticalAPI/verticalApi.go:165-253 | frames back to back are cut apart again, whatever follows them |
| VerticalApi.StreamIsFrames | gossip/verticalAPI/verticalApi.go:165-253 | every stream is whole frames and a rest at which reading ends |
| VerticalApi.FrameMeans | gossip/verticalAPI/types/messageHdr.go:34-60 | the bytes of a frame, position by position: size, type number, and the fields of each type |
| VerticalApi.StreamRoundTrip | gossip/verticalAPI/verticalApi.go:165-253 | faithful packets are read back in order, skipped frames between them cost nothing, and the rest is read as if it came first |
| VerticalApi.RoundTripIff | gossip/verticalAPI/types/gossip_announce.go:37-92 | a printed packet is read back as itself if and only if its size fits, its reserved field is the buffer's and its flag is its bit |
| VerticalApi.PrintedBytes | gossip/verticalAPI/types/gossip_notification.go:64-88 | the bytes printed for each packet type, position by position |
| VerticalApi.ParsedFramePrints | gossip/verticalAPI/types/gossip_announce.go:37-92 | a packet that was read prints as its frame if and only if no bytes after a fixed-size packet were dropped |
| VerticalApi.NotificationFrameParses | gossip/verticalAPI/types/gossip_notification.go:37-88 | a printed notification has a header size on which the parser's slice bounds hold and parses to itself, if and only if its data has at most 65527 bytes |
| VerticalApi.WrittenStreamSplitsIff | gossip/verticalAPI/verticalApi.go:259-300 | a written stream is cut at the notifications' own boundaries if and only if each fits its header |
| Registry.NotifyMap.Load | gossip/main/data.go:44-50 | the list of the type |
| Registry.NotifyMap.AddChannelToType | gossip/main/data.go:56-74 | appends the connection unless its id is registered for the type, which is the error |
| Registry.NotifyMap.RemoveChannel | gossip/main/data.go:79-94 | swap-removes the id from every list, in any order of the types; returns a removed connection, or nil exactly if there was none |
| Registry.WithoutIdIs | gossip/main/data.go:84-91 | swap-removal drops exactly the id and keeps ids distinct |
| Registry.RunHolds | gossip/main/data.go:56-94 | after any run an id is in a type's list if and only if some registration of it was asked for and not removed since |
| Registry.RunIsStanding | gossip/main/data.go:56-94 | after any run a type's list has no id twice, and holds exactly the connections registered first and not removed since |
| Registry.RemovalClears | gossip/main/data.go:79-94 | removal clears the id from every type, and returns nil exactly when none of its registrations stood |
| PacketCounter.Counter.Add | gossip/internal/packetcounter/packetcounter.go:59-75 | adds to the current bucket, or reports it and starts a new one |
| PacketCounter.Counter.Finalize | gossip/internal/packetcounter/packetcounter.go:79-86 | reports the current bucket, if there is one |
| PacketCounter.Conserved | gossip/internal/packetcounter/packetcounter.go:59-86 | in each bucket and in all, whatever the clock does, the reports add up to what was added but for multiples of 2^64 |
| PacketCounter.BucketsKept | gossip/internal/packetcounter/packetcounter.go:59-86 | the buckets reported are exactly those to which something was added |
| PacketCounter.InOrderIff | gossip/internal/packetcounter/packetcounter.go:59-86 | the buckets are strictly increasing if and only if the clock, cut to buckets, never went back |
| PacketCounter.ProcessSentPackets | gossip/internal/testutils/tester_processing.go:143-185 | the result is the tally of the selected events: one count for each bucket, in order, of all that was counted there |
| PacketCounter.TallyUnique | gossip/internal/testutils/tester_processing.go:159-182 | there is one tally only, so the result does not depend on how equal buckets were sorted |
| PacketCounter.ResultIsTallyOfAmounts | gossip/internal/testutils/tester_processing.go:143-185 | on a log of any number of counters' reports, in any order among other events, the result is the tally of what was added to the counters |
| PacketCounter.TallyTotal | gossip/internal/testutils/tester_processing.go:161-182 | the tally has the same total, if that is below 2^64 |
| Windows.ReportsAreWindows | gossip/internal/packetcounter/packetcounter.go:43-86 | the reports under b are for the window that starts at b, exist if and only if something was added in it, and add up to that modulo 2^64 |
| Windows.OneReportPerWindow | gossip/internal/packetcounter/packetcounter.go:43-86 | while the clock does not go back there is one report for each window, in order, with all that was added in it |
| Windows.ResultIsWindowSums | gossip/internal/testutils/tester_processing.go:143-185 | on a shuffled log of any number of counters the result is, window by window in order, what was added to them |

## Left out

- Sockets, goroutine scheduling, contexts, the capnp encoding of the horizontal API and logging: I/O and a library.
- Liveness of channel sends: the node and the main package block on unbuffered channels in both directions, and a
  proof-of-work result found before the caller waits is dropped, so no progress is promised by the code.
- The ConnReq that the loop sends to every connection to be proved when it starts.
- One time value stands for all the clock readings of one loop turn, also for those of a timeout tick, one per peer.
- DummyStrat.DummyStrat.OnRenewJobDone: requires that the connection the job was started for is the only one known under
  its id, and as an open one. Listen proves that this always holds when addresses are not used again; what happens to a job
  whose address was used again is not modelled.
- DummyStrat.DummyStrat.OnGossipTick: all messages of one tick choose among the same open connections. In the source a
  handshake job can end between two of them, so that the later messages may also go to the peer it opened.
- DummyStrat.DummyStrat.OnConnPoW: requires what the source's slice expressions do, a cookie of at least 24 bytes that, if
  it decrypts, has room for timestamp and challenge; shorter ones fail there. The same holds for OnPowPoW and Cookies.Read.
- VerticalTypes.GossipAnnounce.Unmarshal: requires a size of at least eight in the header where the buffer is long
  enough, as the source's slice bounds do; the read loop always meets it. The same holds for GossipNotification.Unmarshal.
- Distances.CalcDistances: distances are unbounded here, so uint overflow of a distance is not modelled; an edge list
  with fewer than two entries, on which the source fails, is excluded.
- The data of a received announce is a slice of the buffer that the next frame overwrites; the model takes the bytes at
  the moment of sending. Likewise Load's result is taken as a value, though a later removal writes into the same array.
- Work items over other nonce types than uint64, and `p2p_reg/main.go`, which does not use the search modelled here.
- Registry: what the main package does with the returned connection, and the locks.
- ProcessSentPackets gives seconds since the start of the test as floating-point numbers; the model keeps the buckets.
- Argument parsing, the tester's lifecycle and its other reports, and all report tooling.
