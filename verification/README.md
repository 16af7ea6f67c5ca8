# BigBFT: a verified model

This project models the logic of the BigBFT repository and proves what it promises. `dafny verify dfyconfig.toml`
checks everything.

**The consensus engine** (`Replicas`, `Engine`, `ReplicaSteps`, `ReplicaProposals`, `ReplicaInvariant`).
`Engine.Consensus` is the replica object of `consensus/consensus.go`: two maps, counters, log entries and quorums that
its handlers update in place. Each handler is proved against a function on values in `Replicas`. Where Go ranges over a
map, the order is chosen by the loop and handed out as a ghost result, so that everything holds for every order.
`ReplicaSteps` and `ReplicaProposals` say in closed form what exec, votes and proposals do, and
`ReplicaInvariant.Good` is what every handler keeps.

**The cluster** (`Cluster`, `ClusterSafety`, `ClusterReplies`, `ClusterBallots`, `ClusterMarking`, `ClusterServing`,
`ClusterDisagreement`, `ClusterAsking`, `ClusterResting`, `ClusterSkipping`). Replicas and their messages: a message
broadcast once may reach every other replica any number of times, in any order, or never. A run is a list of client
requests and deliveries of any length; the theorems are about all runs of clusters of any size and any batch size.
`ReplicaVoting`, `ReplicaServing`, `ReplicaUnvoted`, `ReplicaSkipping` and `ClusterRuns` build the runs that show what
is reached, and where a promise fails.

**The round protocol** (`Protocol`, `ProtocolInvariant`, `ProtocolQuorums`, `ProtocolWitness`, `ProtocolSteps`). The
next-state relation of `tla/BigBFT.tla` for every F, MaxSlot and MAXROUND, where the repository model-checks F = 1.

**The replicated database** (`Databases`, `Conflicts`, `HistoryCheck`), **ballots and identifiers** (`Ballots`, `Ids`),
**quorums** (`Quorums`), and the library: **graph searches** (`Walks`, `Cycles`, `SearchOrders`, `Graphs`), the
**hash ring** (`HashRings`), the **queue** (`Queues`) and the **rate limiter** (`Limiters`). `Cardinality`, `Sequences`
and `Options` are small helpers.

What the code does that its documentation or its users may not expect, each with a lemma:

- Agreement rests on clients using a slot number for one command only, which the benchmark's counter supplies
  (benchmark.go:172-175, consensus/consensus.go:72): `HandleVote` does not compare commands.
  `ClusterDisagreement.AgreementExactly` says for every cluster, batch size and set of commands when replicas always
  agree: unless there are two replicas, commands for as many slots as a vote lists, and two commands for one slot
  before which no slot lacks a command.
- `Majority` asks for half of the nodes (quorum.go:57-59), so two majorities can be disjoint in every cluster
  (`Quorums.MajoritiesNeedNotMeet`).
- `exec` is to ask for votes before it runs a slot that the replica has not voted for (consensus/consensus.go:276-291).
  It does so in some run exactly when there are two replicas or more and the batch size is below their number
  (`ClusterAsking.AskingExactly`); asking empties the quorum, so that the next `exec` runs the slot all the same
  (`ReplicaSteps.AskingOnce`). A replica can rest between handlers on a slot that `exec` would ask for exactly when
  the batch size is below half of the number of replicas (`ClusterResting.RestingExactly`). A replica can execute a slot
  that it has neither proposed nor voted for, whatever the batch size, exactly when there are two replicas or more and
  clients have commands for slot 0, for another slot, and for as many slots as a vote lists
  (`ClusterSkipping.SkippingExactly`).
- The invariant `Agreement` of the specification (tla/BigBFT.tla:252-255) is a tautology; `ProtocolQuorums.CommitProves`
  and `ProtocolQuorums.Provenance` say what a commit does prove. Something can commit exactly when MaxSlot = N-1, or
  MAXROUND = 0 and MaxSlot is at least N-F (`ProtocolWitness.CommitsExactly`); all processes can be done exactly when
  MaxSlot = N-1 and MAXROUND < N. With the shipped MaxSlot of 7 and N = 4 no process ever leaves round 0.
- The property `Termination` of the specification (tla/BigBFT.tla:245) fails for all constants: a coordinator that has
  voted for its slot before N-F processes have is left at P2 without a step (`ProtocolSteps.StepsExactly`), and from
  there the protocol never finishes (`ProtocolSteps.NeverFinishes`, `ProtocolSteps.DeadEnd`).
- `Cycle` promises the vertices of a cycle (lib/graph.go:211) but may also return the path that led into it, even when
  all vertices lie on cycles (`Graphs.LeadInIsReturned`, `Graphs.StrayIsReturned`). It returns the vertices of a cycle
  in every order of iteration exactly when each vertex with an edge into a cycle forms a cycle together with it
  (`Graphs.FindsCyclesExactly`), and the cycle found with nothing besides exactly when every vertex lies on every cycle
  that it reaches (`Cycles.LassosAreCyclesExactly`).
- The limiter lets a burst through after idle time (`Limiters.BurstPasses`). A second holds ten operations more than the
  rate at every rate up to 10^9 (`Limiters.TenAboveRate`), and no more than that exactly when (10^9 - slack) / interval
  is at most rate + 10 (`Limiters.GrantsPerSecond`), which is so for all rates that divide 10^9 and not for 50001. It
  limits nothing exactly above 10^9 operations per second (`Limiters.NoLimit`).
- A ballot's counter wraps (`Ballots.NextIncreases`, `Ballots.CounterWraps`): ballots never fall exactly in runs of fewer
  than 2^32 requests, and tell proposals apart exactly up to 2^32 requests (`ClusterBallots.NeverFallExactly`,
  `ClusterBallots.AlwaysUniqueExactly`).

## Model

| member | source | states |
|---|---|---|
| Engine.Consensus.constructor | consensus/consensus.go:43-64 | a new replica has empty maps, frontier 0, slot and count -1 |
| Engine.Consensus.HandleRequest | consensus/consensus.go:70-76 | refines the value-level handler: slot from the command's counter, next ballot, then the proposal |
| Engine.Consensus.Propose | consensus/consensus.go:77-119 | the leader's entry replaces whatever the slot held, a vote is queued, the proposal is broadcast with the current ballot |
| Engine.Consensus.Enter | consensus/consensus.go:79-89 | only the entry of the current slot changes, to an uncommitted, voted entry with an empty quorum of its own |
| Engine.Consensus.HandlePropose | consensus/consensus.go:120-224 | for every iteration order of both loops the new replica state is that of the value-level handler, and the order met satisfies Go's rules for ranging over a map that shrinks; when the second loop is due the frontier passes exactly the longest run of committed slots, otherwise nothing is executed |
| Engine.Consensus.AcceptProposal | consensus/consensus.go:125-155 | the later ballot, an entry made only when the slot has none, leader cleared, vote queued |
| Engine.Consensus.MarkAllVoted | consensus/consensus.go:168-177 | the loop marks every entry voted and raises flag2 to the largest slot, in whatever order it goes |
| Engine.Consensus.SweepLog | consensus/consensus.go:197-209 | the second loop while exec deletes from the map it ranges over: keys come up at most once and none is left out |
| Engine.Consensus.HandleVote | consensus/consensus.go:226-262 | for every order of the vote's slots the new state is that of the value-level handler |
| Engine.Consensus.CountVote | consensus/consensus.go:229-260 | one slot of a vote: ignored when already executed and gone, otherwise acknowledged and, on a majority, committed and executed |
| Engine.Consensus.exec | consensus/consensus.go:263-311 | the loop with its three exits terminates in the state of the recursive specification |
| Engine.Consensus.Run | consensus/consensus.go:290-305 | the command is applied to the database; a reply with the previous value goes out only for the replica's own request it still leads |
| Replicas.SweepMore | consensus/consensus.go:199-209 | one more turn of the shrinking loop is one more step at the end of its specification |
| Replicas.SweepEnds | consensus/consensus.go:199-209 | the loop ends exactly when every key still in the log has come up |
| Replicas.ExecShrinks | consensus/consensus.go:306-307 | exec never adds a slot to the log |
| ReplicaSteps.RunIsLongest | consensus/consensus.go:263-311 | the slots exec runs are the longest contiguous run of ready slots from the frontier: present, committed, and voted or short of Total acknowledgements |
| ReplicaSteps.ExecRuns | consensus/consensus.go:263-311 | exec executes those slots in slot order and nothing else; what remains in the log is untouched except that the slot that stopped it, when committed, has its quorum emptied and a vote broadcast |
| ReplicaSteps.AskingOnce | consensus/consensus.go:276-288 | whenever exec asks for votes, the next exec runs the slot although the replica has still not voted, if and only if the batch size is positive |
| ReplicaSteps.VoteOrderMeans | consensus/consensus.go:229-229 | an order of the loop over a vote comes to every slot listed and to each once |
| ReplicaSteps.VotesHeeded | consensus/consensus.go:226-262 | after a vote every slot it lists has been executed, or is committed on a majority and holds the acknowledgement, which only asking for votes on a committed slot not voted for takes back |
| ReplicaProposals.ProposalEffect | consensus/consensus.go:120-224 | whatever the order of the loops: when the slot is below the largest one marked, or the batch size is zero or less, every entry left is marked and the frontier has passed exactly the longest run of committed slots; otherwise nothing is executed and entries are marked exactly when the marking is due by count or by a full queue |
| ReplicaProposals.ProposalSends | consensus/consensus.go:179-195 | a full queue goes out as one vote for the queued slots and that of the proposal, and when the marking is due nothing else is sent |
| ReplicaProposals.ProposalTakesOver | consensus/consensus.go:145-155 | another's proposal for a slot takes its leadership away: what is answered meanwhile are other slots that the replica led, and the slot is no longer led |
| ReplicaProposals.ProposalHighest | consensus/consensus.go:168-209 | flag2 becomes the largest of itself, of all slots when the marking is due, and of those the second loop comes to |
| ReplicaProposals.UncommittedQuiet | consensus/consensus.go:199-209 | as long as only slots come up that are not committed, the second loop marks them and executes and sends nothing |
| ClusterMarking.RunCounts | consensus/consensus.go:43-144 | after any run the count of a replica is one less than the number of requests and of proposals for slots new to it |
| ClusterMarking.MarkedExactly | consensus/consensus.go:157-209 | a delivered proposal leaves all entries marked exactly when the replica has entered more slots than it has executed and a vote lists, or has queued as many as a vote lists, or the second loop is due; otherwise marks stay as they were |
| ReplicaInvariant.GoodExec | consensus/consensus.go:263-311 | exec keeps the replica invariant (gapless execution, certified commits, ordered replies) and only ever adds |
| ReplicaInvariant.GoodHandleRequest | consensus/consensus.go:70-119 | a client request keeps the replica invariant and executes nothing |
| ReplicaInvariant.GoodHandlePropose | consensus/consensus.go:120-224 | a proposal keeps the replica invariant, late and duplicate ones included |
| ReplicaInvariant.GoodHandleVote | consensus/consensus.go:226-262 | a vote keeps the replica invariant when its senders have voted for its slots |
| ReplicaInvariant.GoodWithin | socket.go:159-167 | what a replica relies on survives anything the other replicas do |
| ClusterSafety.RunKeepsInv | consensus/consensus.go:70-311 | the invariant holds of every replica after every run |
| ClusterSafety.ExecutedSlotsAreCertified | consensus/consensus.go:226-311 | in every run each replica executes slots 0, 1, 2, ... without a gap, each a command some client asked for with that number, and only after at least floor(n/2) other replicas have voted for the slot, whatever exec has reset since |
| ClusterSafety.SlotAgreement | consensus/consensus.go:226-311 | two replicas never execute different commands in a slot that clients used for one command |
| ClusterSafety.ExecutedPrefixes | consensus/consensus.go:70-311 | with one command per slot, of any two replicas one has executed a prefix of what the other has |
| ClusterSafety.HistoriesArePrefixes | db.go:124-135 | with one command per slot and multiversion on, of any two replicas' histories of a key one extends the other |
| ClusterSafety.HistoriesAgree | client.go:364-406 | with one command per slot the admin check of histories finds no difference for any key |
| ClusterSafety.SameFrontierSameDatabase | db.go:104-135 | with one command per slot, replicas at the same frontier hold equal databases |
| ClusterSafety.RunsUndoNothing | consensus/consensus.go:263-311 | frontiers never fall, and executed commands, sent messages and replies are never taken back |
| ClusterSafety.DeliveryGrows | consensus/consensus.go:120-262 | a delivery changes the ballot only to the later of the two and makes no proposal |
| ClusterReplies.AnsweredExactlyWhenExecuted | consensus/consensus.go:290-308 | with slot numbers given out once, a request is answered if and only if its slot has been executed at the replica that received it, by no other replica, and at most once |
| ClusterReplies.RepliesFollowTheLog | db.go:104-115 | whatever clients do, a reply carries what its key held after the slots before its own, goes to a request of that replica, and replies follow slot order |
| ClusterReplies.RunKeepsPending | consensus/consensus.go:79-89 | an unanswered request stays in the log of its replica as the leader's entry |
| ClusterServing.ServingRun | consensus/consensus.go:70-311 | in every cluster of two replicas or more, for every batch size, any commands and any number of rounds, some run with slot numbers given out once has every command executed by every replica in slot order and answered |
| ClusterServing.AnsweringExactly | consensus/consensus.go:290-308 | some request is answered in some run if and only if there are two replicas or more |
| ReplicaServing.Hears | consensus/consensus.go:120-224 | a proposal for a new slot either queues a vote for it or, when the queue is full, sends votes for all slots known, and marks them all |
| ReplicaServing.CountsVote | consensus/consensus.go:226-311 | counting a vote, in any order of its slots, keeps slots committed exactly on a majority and the frontier uncommitted, and loses no vote |
| ReplicaServing.AllExecuted | consensus/consensus.go:263-311 | once half of the replicas' votes for every slot are counted all slots have been executed |
| ClusterBallots.ProposalBallotsAreUnique | consensus/consensus.go:70-76 | in runs with at most 2^32 requests two proposals carry the same ballot only if they are the same proposal |
| ClusterBallots.BallotsNeverFall | consensus/consensus.go:125-127 | in runs with fewer than 2^32 requests a replica's ballot never decreases |
| ClusterBallots.RunKeepsBallots | ballot.go:50-52 | counters of a replica's proposals rise and never exceed the number of requests |
| ClusterBallots.NeverFallExactly | ballot.go:49-52 | for every cluster, a bound on the number of requests ensures that no ballot ever falls if and only if it is below 2^32 |
| ClusterBallots.AlwaysUniqueExactly | ballot.go:49-52 | for every cluster, a bound on the number of requests ensures that no two proposals carry the same ballot if and only if it is at most 2^32 |
| ClusterDisagreement.AgreementExactly | consensus/consensus.go:226-262 | for every cluster, batch size and set of commands that clients may ask for, replicas always agree if and only if not all of this holds: two replicas or more, commands for as many slots as a vote lists, and two commands for one slot before which no slot lacks a command |
| ClusterDisagreement.Disagreement | consensus/consensus.go:229-251 | whenever all of that holds there is a run in which two replicas execute different commands in one slot |
| ClusterDisagreement.RunStaysQuiet | consensus/consensus.go:185-195 | while clients have commands for fewer slots than a batch holds, no replica of two or more ever sends a vote |
| ReplicaVoting.VotesOwn | consensus/consensus.go:120-224 | on a proposal for one of its slots a replica with enough queued votes votes for exactly the queued slots and that one, and keeps its own commands |
| ReplicaVoting.CountSome | consensus/consensus.go:226-262 | a vote that makes no majority acknowledges exactly the slots that have come up and sends nothing |
| ReplicaVoting.MajorityRuns | consensus/consensus.go:226-311 | the vote that makes a majority executes the slots from 0 on as the replica was asked, whatever the voters were asked |
| ClusterAsking.AskingExactly | consensus/consensus.go:276-288 | some run makes exec ask for votes if and only if there are two replicas or more and the batch size is below their number |
| ClusterSkipping.SkippingExactly | consensus/consensus.go:276-291 | for every cluster, batch size and set of commands that clients may ask for, some run makes a replica execute a slot that it has neither proposed nor voted for if and only if there are two replicas or more and commands for slot 0, for another slot, and for as many slots as a vote lists |
| ClusterSkipping.RunIdle | consensus/consensus.go:70-311 | with commands for slot 0 only and a batch size of one or less, a replica that has neither proposed nor voted for it has not executed it, after any run |
| ReplicaSkipping.FinalVote | consensus/consensus.go:226-311 | the vote that makes the majority for a slot without a proposal commits it, and with a positive batch size executes it, at once or after asking in vain |
| ClusterResting.RestingExactly | consensus/consensus.go:244-288 | some run leaves a replica, between handlers, on a slot that exec would ask votes for if and only if there are two replicas or more and the batch size is below half of their number, rounded down |
| ProtocolInvariant.StepKeepsInv | tla/BigBFT.tla:155-240 | every step keeps the invariant that the theorems below rest on |
| ProtocolInvariant.ReachableInv | tla/BigBFT.tla:242-242 | it holds in every reachable state, for every F, MaxSlot and MAXROUND |
| ProtocolInvariant.VoteKeepsInv | tla/BigBFT.tla:188-209 | a vote, with the commit test that reads the votes before it, keeps the invariant |
| ProtocolQuorums.VotesAreUnique | tla/BigBFT.tla:188-198 | a process votes at most once for a proposer in a round |
| ProtocolQuorums.FullRound | tla/BigBFT.tla:224-229 | N*N votes of a round are present exactly when everybody has voted for every leader |
| ProtocolQuorums.LeavingARound | tla/BigBFT.tla:224-229 | a process is past a round only when all N*N votes of it are present |
| ProtocolQuorums.ManyVoters | tla/BigBFT.tla:199-208 | (N-F)*N votes of a round come from at least N-F voters and concern at least N-F leaders |
| ProtocolQuorums.CommitProves | tla/BigBFT.tla:199-208 | a commit before MAXROUND proves that every process voted for every leader, a commit in MAXROUND that at least N-F did |
| ProtocolQuorums.EarlierSlotsHaveQuorums | tla/BigBFT.tla:215-222 | a vote for a slot proves N-F distinct voters behind every earlier slot of its round |
| ProtocolQuorums.SlotQuorumsMeet | tla/BigBFT.tla:215-222 | any two of those slots share at least F+1 voters |
| ProtocolQuorums.QuorumsMeet | tla/BigBFT.tla:215-222 | quorums of N-F voters of any two slots of any two rounds share at least F+1 processes |
| ProtocolQuorums.Provenance | tla/BigBFT.tla:164-198 | every vote answers the one proposal of its slot, every proposal the one assignment by the round's coordinator, and log values are exactly the proposed ones |
| ProtocolQuorums.BehavioursExtend | tla/BigBFT.tla:164-213 | messages are never taken back, log values are written once, commits are never undone |
| ProtocolQuorums.SlotsAreBounded | tla/BigBFT.tla:259-259 | the invariant Progress for every F: no process gets past slot N |
| ProtocolQuorums.VotesAreBounded | tla/BigBFT.tla:257-257 | the invariant AllVote for every F: at most N*N votes a round |
| ProtocolQuorums.OtherSlotsNeverCommit | tla/BigBFT.tla:199-229 | with MaxSlot other than N-1 nobody leaves round 0, and with MAXROUND above 0 nothing ever commits |
| ProtocolQuorums.DoneNeeds | tla/BigBFT.tla:155-162 | all processes are done only with MaxSlot = N-1 and MAXROUND below N |
| ProtocolWitness.FinishingRun | tla/BigBFT.tla:144-240 | for every F >= 1, MaxSlot = N-1 and MAXROUND < N there is a run in which every entry of every round commits and every process is done |
| ProtocolWitness.FinishesExactly | tla/BigBFT.tla:144-245 | a state with all processes done is reachable if and only if MaxSlot = N-1 and MAXROUND < N |
| ProtocolWitness.VoteCommits | tla/BigBFT.tla:199-208 | a leader's first vote of a round commits its entry of the round before, its last vote in MAXROUND the entry of that round |
| ProtocolWitness.CommitsExactly | tla/BigBFT.tla:188-222 | for every F >= 1 some commit is reachable if and only if MaxSlot = N-1, or MAXROUND = 0 and MaxSlot >= N-F |
| ProtocolSteps.StepAdds | tla/BigBFT.tla:164-213 | a step at P2 within the slots adds exactly one message that was not there, an assignment, a proposal of the slot's leader or a vote, unless the process does not coordinate its round, when it may add none |
| ProtocolSteps.StepsExactly | tla/BigBFT.tla:164-213 | at P2 a process that does not coordinate its round always has a step; the coordinator has one if and only if its slot is not assigned, or it leads the slot and has an assignment to propose for, or it has not voted for the proposal |
| ProtocolSteps.NextSlotExactly | tla/BigBFT.tla:215-222 | at P3 a process goes on to the next slot if and only if N-F different processes have voted for its own |
| ProtocolSteps.NextRoundExactly | tla/BigBFT.tla:224-231 | at P4 a process goes on to the next round if and only if every process has voted for every leader |
| ProtocolSteps.NeverFinishes | tla/BigBFT.tla:164-245 | from a reachable state in which a coordinator stands at P2 at a slot it has voted for, no continuation takes it out of its round or finishes the protocol |
| ProtocolSteps.DeadEnd | tla/BigBFT.tla:144-245 | for all constants with F >= 1 such a state is reachable: Termination fails whatever is assumed of the scheduling |
| Databases.Database.Execute | db.go:104-115 | returns the previous value of the key and applies the command |
| Databases.Database.Put | db.go:124-142 | a nil value changes nothing; any other is stored, counted, and with multiversion appended to the history |
| Databases.ReplayFromEmpty | db.go:104-156 | after any commands a key holds its last write, the version is the number of writes, and with multiversion the history is every write in order |
| Databases.WritesToPrefix | db.go:151-156 | a longer command sequence only extends histories |
| Conflicts.ConflictBatch | db.go:176-185 | true exactly when some pair across the batches conflicts |
| Conflicts.ConflictExactly | db.go:165-173 | two commands conflict if and only if some database state shows their order, in the final state or a returned value |
| Conflicts.BatchesConflictExactly | db.go:175-185 | the same for batches |
| Conflicts.BatchesCommute | db.go:175-185 | batches without a conflict give the same state and return values in either order, from every state |
| Conflicts.ConflictShows | db.go:165-185 | a conflicting pair shows from every state that holds nothing under the key |
| Conflicts.ReorderingIsInvisible | db.go:165-173 | any permutation that keeps the order of conflicting pairs gives the same data, history, version and return value of each command |
| HistoryCheck.Consensus | client.go:388-405 | true exactly when any two histories agree wherever both have an entry: the entries are equal, or both nil or empty |
| HistoryCheck.Longest | client.go:388-393 | the longest history bounds the loop |
| HistoryCheck.Texts | client.go:394-400 | the set holds exactly the texts found at that position |
| Quorums.Quorum.ACK | quorum.go:22-28 | refines the value-level acknowledgement: a repeated sender changes nothing |
| Quorums.Quorum.Reset | quorum.go:41-46 | an empty quorum again |
| Quorums.Quorum.Majority | quorum.go:57-59 | true exactly when the number of distinct senders acknowledged is at least floor(n/2) |
| Quorums.MajorityMeans | quorum.go:22-59 | after any acknowledgements, in any order and with repeats, Majority holds if and only if at least floor(n/2) different nodes are among the senders |
| Quorums.Quorum.ZoneMajority | quorum.go:67-74 | true exactly when some zone has more than half of its nodes among the distinct senders |
| Quorums.AckCounts | quorum.go:22-28 | size and zone counters count the distinct senders; acknowledging twice is acknowledging once |
| Quorums.AckAllCounts | quorum.go:22-28 | after any acknowledgements, in any order and with repeats, the counters are those of the set of senders |
| Quorums.AllZonesMeans | quorum.go:62-64 | AllZones holds exactly when every configured zone has an acknowledgement |
| Quorums.ZoneMajoritiesMeet | quorum.go:67-74 | two quorums with a majority in the same zone share a node of it |
| Quorums.MajoritiesNeedNotMeet | quorum.go:57-59 | in every cluster two disjoint sets of nodes both pass Majority |
| Ballots.PackRoundTrip | ballot.go:15-47 | counter (modulo 2^32) and identifier can be read back from a packed ballot |
| Ballots.PackMeans | ballot.go:15-17 | a ballot of a 32-bit counter and a canonical identifier is counter times 2^32 plus zone times 2^16 plus node |
| Ballots.OrMeans | ballot.go:15-17 | the or of two numbers has a bit exactly where one of them has |
| Ballots.OrderIsLexicographic | ballot.go:15-17 | for canonical identifiers and 32-bit counters ballot order is the lexicographic order of counter, zone and node, and equality is equality of both |
| Ballots.Unpack | ballot.go:37-47 | every 64-bit ballot is the packing of its own fields |
| Ballots.StringRoundTrip | ballot.go:19-56 | printing any 64-bit ballot and reading the text gives the ballot back |
| Ballots.StringMeans | ballot.go:54-56 | the text of a ballot is its counter, zone and node in decimal, without leading zeros, with dots between them |
| Ballots.NextIncreases | ballot.go:49-52 | Next gives a later ballot if and only if the counter has not reached its last value |
| Ballots.CounterAfter | ballot.go:49-52 | after k calls the counter has risen by k modulo 2^32 |
| Ballots.CounterWraps | ballot.go:49-52 | after 2^32 further calls the same ballot returns |
| Ballots.NextBallotAgrees | ballot.go:58-62 | NextBallot on plain ints agrees with Ballot.Next for every ballot, negative ones included |
| Ballots.LeaderIDAgrees | ballot.go:64-69 | LeaderID reads the identifier that Ballot.ID reads |
| Ids.NewIDRoundTrip | id.go:14-61 | Zone and Node of a new identifier, for all 64-bit zones and nodes: their magnitude, and 0 for the least one, whose magnitude is printed with a sign that does not parse |
| Ids.NewIDCanonical | id.go:14-61 | 16-bit parts give an identifier that determines them |
| Ids.ParseDecimal | id.go:38-42 | parsing the decimal digits of any 64-bit number gives the number |
| Ids.ParseUintMeans | id.go:38-42 | a text parses if and only if it is digits, at least one, that come to a 64-bit number, and then to the sum of (s[i] - '0') * 10^(n-1-i) |
| Ids.DecimalMeans | id.go:14-23 | the decimal text of a number is digits with that sum, without a leading zero |
| Ids.PartsMean | id.go:32-61 | of a text of digits, a dot and digits, and perhaps a further dot and anything, Zone is the number of the first digits and Node of the second, as an int64, or 0 beyond 64 bits |
| Ids.NoDotMeans | id.go:32-61 | of digits without a dot Zone is 0 and Node the number |
| Ids.NewIDMeans | id.go:14-23 | the text of a new identifier is both magnitudes in decimal, without leading zeros, with a dot between them |
| Graphs.Graph.Add | lib/graph.go:27-33 | adds the vertex, keeps every edge and the from/to mirror |
| Graphs.Graph.Remove | lib/graph.go:35-47 | removes the vertex and exactly its edges, and keeps the mirror |
| Graphs.Graph.AddEdge | lib/graph.go:49-61 | refuses a self edge; otherwise adds that edge and its end points only, and keeps the mirror |
| Graphs.Graph.RemoveEdge | lib/graph.go:63-69 | removes that edge only and keeps the mirror |
| Graphs.Graph.Transpose | lib/graph.go:159-170 | a fresh graph with the same vertices and every edge and walk reversed |
| Graphs.Graph.BreadthFirst | lib/graph.go:86-108 | terminates with exactly the vertices that the start reaches, each once, none before a nearer one, in whatever order sets are ranged over |
| Graphs.Graph.BFS | lib/graph.go:85-108 | that for the edges of the graph |
| Graphs.Graph.BFSReverse | lib/graph.go:135-157 | exactly the vertices that reach the start, nearest first: what BFS gives on the transposed graph |
| Graphs.Graph.DFS | lib/graph.go:110-133 | terminates although visited vertices push again, with exactly the reachable vertices, each once, in depth first order |
| Graphs.Graph.Visit | lib/graph.go:180-192 | a gray neighbour closes a lasso of gray vertices; otherwise the vertex is finished after all it reaches; a first descent that turns back is returned as it is |
| Graphs.Graph.Cyclic | lib/graph.go:194-209 | true if and only if the graph has a directed cycle |
| Graphs.Graph.Cycle | lib/graph.go:211-232 | non-nil if and only if there is a cycle; the result is the gray vertices, a path with an edge back into it, and contains all vertices of some cycle; they are the vertices of a cycle when each vertex with an edge into a cycle forms a cycle with it; for the order of iteration it is given, a first descent that turns back is what it returns |
| Graphs.LeadInIsReturned | lib/graph.go:211-232 | in the graph 1 to 2, 2 to 3, 3 to 2 some order of iteration makes Cycle return 1, 2 and 3, and 1 lies on no cycle |
| Graphs.StrayIsReturned | lib/graph.go:211-232 | in the graph 1 to 2, 2 to 3, 3 to 2, 3 to 4, 4 to 1, where every vertex reaches every other, some order of iteration makes Cycle return 1, 2 and 3, which are not the vertices of any closed walk |
| Graphs.FindsCyclesExactly | lib/graph.go:211-232 | a first descent that turns back gives the vertices of a cycle in every order of iteration if and only if each vertex with an edge into a cycle forms a cycle together with it |
| Graphs.EveryLassoIsFound | lib/graph.go:180-232 | every lasso of every graph is what the search finds, and Cycle returns, in some order of iteration |
| Walks.LassoOnClosedWalk | lib/graph.go:211-232 | a weaker property: a lasso lies on one closed walk, perhaps with other vertices, if and only if its last vertex reaches its first |
| Walks.LassosCloseExactly | lib/graph.go:211-232 | that weaker property holds of every lasso if and only if every successor that reaches a cycle leads back to the vertex it is a successor of |
| Cycles.LassosAreCyclesExactly | lib/graph.go:211-232 | every lasso of a graph is a cycle with no path leading into it if and only if every vertex lies on every cycle that it reaches |
| Cycles.LassosSpanCyclesExactly | lib/graph.go:211-232 | the vertices of every lasso are those of a cycle if and only if each vertex with an edge into a cycle forms a cycle together with it |
| Cycles.Conditions | lib/graph.go:211-232 | of the three conditions each implies the next |
| Walks.FinishedHasNoCycle | lib/graph.go:180-209 | a graph whose vertices all finish has no cycle |
| Walks.MirrorReaches | lib/graph.go:159-170 | reachability in the mirrored map is reachability backwards |
| SearchOrders.BreadthStep | lib/graph.go:94-105 | one turn of the breadth first loop keeps distances exact and the queue within two of them |
| SearchOrders.BreadthDone | lib/graph.go:94-107 | an empty queue means that exactly the reachable vertices have been seen, nearest first |
| SearchOrders.NothingToPush | lib/graph.go:118-130 | when a visited vertex is popped again none of its successors is unvisited: why DFS terminates |
| SearchOrders.VisitStep | lib/graph.go:118-130 | one turn of the depth first loop for a new vertex keeps the stack invariant |
| SearchOrders.DepthDone | lib/graph.go:118-132 | an empty stack means that exactly the reachable vertices have been visited, in depth first order |
| HashRings.HashRing.Insert | lib/hash_ring.go:22-51 | one circle through all nodes again; the new entry stands after all smaller hashes and before all others |
| HashRings.HashRing.Next | lib/hash_ring.go:68-78 | the value after the first node with the given value, nil when there is none, a panic on an empty ring |
| HashRings.NextMeans | lib/hash_ring.go:68-78 | the three answers written out: a panic exactly on an empty ring, nil exactly when no entry has the value, otherwise the value one place after the first that has it, around the ring |
| HashRings.Link | lib/hash_ring.go:36-49 | relinking two pointers puts the node into the circle at its place |
| HashRings.EveryInsertCounts | lib/hash_ring.go:22-51 | any sequence of inserts gives a sorted ring that holds exactly the inserted entries |
| HashRings.HashesRise | lib/hash_ring.go:22-51 | from the head of a built ring hashes rise: of two entries the earlier hash is equal, a prefix, or smaller in the first byte in which they differ |
| HashRings.InsertedStaysSorted | lib/hash_ring.go:34-50 | inserting before the first hash that is not smaller keeps the ring sorted |
| HashRings.BeforeIsTotal | lib/hash_ring.go:34-34 | of two different byte strings exactly one comes before the other |
| HashRings.BeforeMeans | lib/hash_ring.go:34-34 | one byte string comes before another exactly when it is a proper prefix of it or smaller in the first byte in which they differ |
| HashRings.WholeRing | lib/hash_ring.go:68-78 | with distinct values repeated Next goes round the whole ring, in order, every value once, and comes back |
| Queues.Queue.constructor | lib/queue.go:10-17 | an empty queue with room for 100 |
| Queues.Queue.Push | lib/queue.go:23-35 | the element is appended to what is left to pop, wrapped or grown; all elements moved by growing so far are at most twice the pushes |
| Queues.Queue.Grow | lib/queue.go:24-31 | doubling a full wrapped buffer keeps its contents and moves each element once |
| Queues.Queue.Pop | lib/queue.go:37-45 | the k-th element popped is the k-th pushed; nothing from an empty queue |
| Queues.Queue.Size | lib/queue.go:19-21 | pushes minus pops |
| Limiters.Limiter.NewLimiter | rate.go:17-23 | the interval is the quotient of 1 000 000 000 by the rate, the slack that of ten times as much, towards zero; a rate of zero panics |
| Limiters.Limiter.Wait | rate.go:25-50 | refines the step on values; the grant is the time of the call plus what it slept |
| Limiters.RateMeans | rate.go:17-23 | these quotients written out: the largest numbers that multiplied by the rate do not exceed 10^9 and 10^10, with opposite signs |
| Limiters.CreditRises | rate.go:37-49 | with every call last plus sleep rises by at least an interval, through the clamp and both branches |
| Limiters.GrantsAreSpaced | rate.go:25-50 | grants i < j are at least (j-i) intervals apart, less the slack, whatever the clock does |
| Limiters.SpacedExactly | rate.go:25-50 | under every clock, one that runs backwards included, that spacing of calls i < j holds of all runs if and only if the slack is not positive |
| Limiters.SpacedInTurnExactly | rate.go:25-50 | for calls made in turn it holds of all runs if and only if the slack or the interval is not positive, which every rate gives |
| Limiters.GrantsInWindow | rate.go:25-50 | hence a bound on the grants in any window |
| Limiters.WindowIsFilled | rate.go:25-50 | calls made in turn that reach this bound, for every interval, slack and window |
| Limiters.GrantsInWindowExactly | rate.go:25-50 | so a bound on the further grants in a window holds of all calls made in turn if and only if it is at least (window - slack) / interval |
| Limiters.GrantsPerSecond | rate.go:17-23 | for every positive rate up to 10^9, of calls made in turn at most rate + 10 are granted within a second after any grant if and only if (10^9 - slack) / interval is at most rate + 10 |
| Limiters.RateDivides | rate.go:17-23 | that bound is rate + 10 for every rate that divides 10^9 |
| Limiters.RateDoesNotDivide | rate.go:17-23 | at a rate of 50001 more than rate + 10 grants fit into a second |
| Limiters.TenAboveRate | rate.go:17-23 | at every positive rate up to 10^9, any bound on the grants within a second after a grant is at least rate + 10 |
| Limiters.BurstPasses | rate.go:39-49 | for every positive rate, after eleven intervals of idle time eleven calls pass at once |
| Limiters.SleepsAtMostOneInterval | rate.go:37-46 | when no call precedes the grant before it, no call sleeps longer than an interval |
| Limiters.SaturatedRate | rate.go:37-49 | callers that keep the limiter busy are served at exactly one call an interval |
| Limiters.NoLimit | rate.go:17-23 | among positive rates, no call made in turn ever sleeps if and only if the rate is above 10^9 |

## Left out

- Networking, HTTP, gob, goroutines, locks, logging and injected faults: a handler is one atomic step, and a broadcast vote is a snapshot of the batch map, although within one process Go sends the map itself.
- Entry timestamps, the requests list, the fields active, quorum, Q1, Q2, Member, Counter and Flag of the replica, and Quorum's nacks: nothing proved here depends on them.
- Byzantine replicas and signatures: the Go code checks neither, and replicas are assumed to run it; GetMD5Hash is not called by the handlers.
- ProposalBallotsAreUnique: needs identifiers whose parts fit 16 bits, as do NeverFallExactly and AlwaysUniqueExactly; NewBallot lays fields over one another otherwise.
- AnsweredExactlyWhenExecuted: assumes that no slot number is given out twice, as the benchmark's counter ensures.
- Fairness of the specification (tla/BigBFT.tla:243): behaviours are finite; the state that DeadEnd gives has no finishing continuation at all, fair or not.
- Go's nested maps and sets of the graph are maps of sets that are values: From, To and Vertices, which hand out the inner sets themselves, are not modelled.
- BFS and BFSReverse share one search method, and Cyclic and Cycle one loop, where the source writes each out; colors is handed on as a value and returned by visit, and the order in which sets are ranged over is a parameter of Cyclic, Cycle and visit.
- lib/graph_scc.go: its loop ranges over the values of a set instead of its members.
- HashRing.Get, search, String and the prev pointers, which nothing sets, and how md5 computes a hash: a ring is built from hashes given as byte strings.
- Limiter: 64-bit saturation of durations, and the time a sleep takes beyond what was asked.
- The simple containers of lib, the policies, statistics, the key distributions of the benchmark, and the fault-tolerant transports.
