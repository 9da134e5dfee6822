# Cluster suite: protocols, votes, on-disk trees and queues

A Dafny model of the hard core of the cluster suite: the fence daemon's domain protocol, the
quorum-disk daemon, the cluster manager's votes, barriers and client replies, and the readers,
bitmaps and allocator of the GFS tools. Each component is modelled twice. A machine over values
(datatypes and functions) carries the theorems about all inputs, all runs and all reachable
states. Beside it, a class or a method with loops works in place the way the program does, and
its contract ties the new state to that machine, so the theorems hold of it.

| files | component |
|---|---|
| Basics | what several components share |
| FenceDomain, FenceDaemon | the fence domain of one daemon: pending changes, victims, history; and the same in place |
| FenceMerge, FenceGate, FenceVictims, FenceRejoin | merges of two running domains, when fencing may begin, who is a victim, who is spared |
| FenceMaster, FenceDuty | which start messages decide who is master, and what a master must do |
| FenceNews, FenceRecord, FenceHistory | what a domain learns from outside, and what it remembers of its past and of every node |
| DaemonGroup, DaemonGroupSafety, DaemonGroupKicks | the group of all fence daemons, the protocol version it runs, and whom a daemon kicks out |
| QdiskNodes, QdiskSilence, QdiskUndead | a quorum-disk daemon's opinion of the other nodes: when it believes one, gives one up, or meets it again |
| QdiskElection, QdiskDuty | the bid for master: safety, and what a daemon must do in each cycle |
| ClusterQuorum, ClusterCurrent, ClusterDaemon | votes, expected votes, members and quorum of the cluster manager |
| Barrier, BarrierLife, BarrierRepeat, BarrierDaemon | the two-phase barrier over a totally ordered broadcast, one life of one barrier, and what repeated registration does to it |
| ReplyQueue | replies to a client that does not keep up |
| GfsHeights, GfsTree, GfsBytes, GfsMap, GfsRead | height tables, the metadata tree, which bytes a pointer is, block mapping, reading a file |
| HashRuns, GfsDirectory | walking the hash table of a directory |
| ResourceBits, Bitmap, BlockList, BlockAlloc | block bitmaps, the checker's block list, the allocator |

Machine integers are written out where they matter: the start counter of a domain and the counts
of a barrier wrap at 2^32, message numbers of the quorum disk at 2^16, vote totals are unsigned
32-bit numbers compared as signed ones, table entries and file sizes are 64-bit. Clocks,
membership replies, what a fence agent returns, what a disk read gives and what a socket takes
are arguments.

Where the code and its own words disagree, the code is followed:

- After a barrier times out its comment says that later messages are ignored; the code sets the
  phase back, so later WAITs are counted. The safety theorem covers that.
- The comment of the departure check of barriers speaks of comparing node counts; the code does
  not, and nothing in the repository calls it. It is the action `NodeLeft` of one barrier.
- The allocator documents a flag for a trial run; the code ignores it.
- The bitmap's error message asks for a power of two; the test lets six through, and zero, which
  then divides by zero.
- A voter's comment promises a vote for the lowest bidder; the code votes for the first in slot
  order, which is the lowest when every slot holds its own id (`VoteIsLowest`).

Properties that fail of the code in general, each with the exact condition under which they hold:

- No failure is unsettled while a change waits for messages: fails exactly for a configuration
  that joins a node it does not list as a member (`ConfchgCheckedExactly`, `BotchedConfigBreaksTheGate`).
- The height table holds true sizes: exactly when one block of pointers covers less than 4 GiB (`TableExactly`, `TableWraps`).
- A node believed running has an incarnation: fails exactly when a block without one is believed
  (`TransitionExactly`, `NoIncarnationBreaksIt`).
- An incarnation given up for silence that goes on writing is not believed again: fails exactly when it
  has been seen more than tkoUp times between two eviction notices (`UndeadReturnsExactly`, `UndeadIsBelieved`).
- The cluster manager's number of members is right: fails exactly when a node that is just leaving is
  reported anew (`CountExactly`, `RejoinCountsTwice`).
- One winner per election on a snapshot: fails exactly when the two bidders' views have nothing in
  common and contain neither bidder (`TwoWinnersExactly`).
- The allocator starts at the goal: exactly when a 32-bit cut of the distance is harmless (`ClampExactly`, `ClampMisses`).
- A barrier whose registrations may repeat needs as many nodes as it names: exactly when it names at
  most one (`RepeatExactly`, `RegisteringAgainBreaksIt`).
- The quorum is above half the highest expected votes counted: exactly when those are below 2^32 - 2
  (`QuorumNeverFalls`, `HugeExpectedWraps`).

Two-node mode gives up the safety of quorum by design; `LoneTwoNode` shows
that it is the one hypothesis of `NoTwoQuorate` that two lone nodes then miss.

## Model

| member | source | states |
|---|---|---|
| FenceDomain.FindMemb | fence/fenced/cpg.c:239-248 | the first member with an id, or none has it |
| FenceDomain.FindChange | fence/fenced/cpg.c:922-935 | the oldest pending change a start message matches, or no change matches |
| FenceMerge.MergeBegins | fence/fenced/cpg.c:1270-1358 | the configuration that adds a peer to a started daemon leaves that daemon blocked on the peer |
| FenceMerge.JoinSucceeds | fence/fenced/cpg.c:1331-1347 | marking the joined nodes succeeds when every one of them is a member |
| FenceMerge.StartShape | fence/fenced/cpg.c:950-1015 | a start message rewrites at most one member of one change, and starts nobody who is added while both sides have started before |
| FenceMerge.StepBlocked | fence/fenced/cpg.c:695-737 | one event keeps a blocked daemon blocked and completes nothing, as long as the peer stays configured and its starts carry a nonzero count |
| FenceMerge.MergeSafety | fence/fenced/cpg.c:937-1015 | under every interleaving of further changes and messages nothing is completed and no fencing begins until a configuration without the peer arrives |
| FenceMerge.StaysStarted | fence/fenced/cpg.c:717-737 | over every run the start counter never returns to zero, the 32-bit wrap included |
| FenceMerge.MergeDeadlock | fence/fenced/cpg.c:950-1015 | two started daemons that see each other as added both stay stuck, when the starts each receives from the other are ones it really sent |
| FenceGate.FencingIsGated | fence/fenced/cpg.c:1218-1258 | in every run fencing is entered only under the newest change, after that change's own start was sent while quorate and every member's start for it was accepted |
| FenceGate.QuorumIsChecked | fence/fenced/cpg.c:649-686 | in every run of proper configurations, no failure is unsettled while the newest change waits for messages |
| FenceGate.ConfchgCheckedExactly | fence/fenced/cpg.c:1403-1457 | a configuration breaks that property if and only if it joins a non-member and reports a known node as failed while we wait |
| FenceGate.BotchedConfigBreaksTheGate | fence/fenced/cpg.c:1306-1337 | a concrete run in which such a configuration does break it |
| FenceGate.AddSucceedsExactly | fence/fenced/cpg.c:1270-1367 | a change is added if and only if every joined node is a member |
| FenceGate.FailedAddFlags | fence/fenced/cpg.c:1306-1337 | a configuration that is refused has nevertheless flagged the failed nodes |
| FenceGate.MasterIsLowest | fence/fenced/cpg.c:739-761 | the master is the lowest member with complete state, or the lowest member when none has it |
| FenceMaster.StartWrites | fence/fenced/cpg.c:950-1015 | a matching start message stores its complete flag in one member of one change and nothing else there: it starts the member unless both sides have started before, and then disallows it |
| FenceMaster.FlagsDecide | fence/fenced/cpg.c:973-1014 | over every run, a started member of a pending change is complete if and only if the start message accepted for that change from that node carried the flag |
| FenceMaster.MasterByMessages | fence/fenced/cpg.c:739-761 | over every run, the master set when a change ends is the lowest sender of an accepted start with the flag, or the lowest member when there is none |
| FenceMaster.StartMatchesExactly | fence/fenced/cpg.c:779-868 | a start message sent for the sender's newest change matches a change at the receiver if and only if the four counts agree, every member the sender knows of is a member there and the receiver is one of them, and the sender is an unstarted member there that came to the cluster before the change |
| FenceDuty.StartsExactly | fence/fenced/cpg.c:649-693 | while the newest change waits for conditions, every message and every tick sends its start if and only if the cluster is quorate and cman has seen every failed node fail, and changes nothing pending otherwise |
| FenceDuty.ConfchgStarts | fence/fenced/cpg.c:1403-1457 | the same of the event that brings a new change |
| FenceDuty.EndsExactly | fence/fenced/cpg.c:1218-1258 | while the newest change waits for messages, every message and every tick ends it if and only if all its members have started: then nothing is pending, the change is the started one and the counter moves on; otherwise only the message has had an effect |
| FenceDuty.DelayLeaves | fence/fenced/recover.c:174-236 | the delay leaves exactly the victims no poll found to be clean members, as they were, and no time that decides about fencing changes |
| FenceDuty.FenceReports | fence/fenced/recover.c:283-417 | fencing reports, in list order and as they stood before it, the victims not done that have a history, each with what its history and its last attempt make of it |
| FenceDuty.LeadFences | fence/fenced/cpg.c:1231-1249 | whoever leads the end of a change: between its Fencing and its SentComplete note every victim that no poll spared, that is not done and has a history is reported exactly once, with the right means, and nobody else; every victim left is done |
| FenceDuty.EveryLeadFences | fence/fenced/cpg.c:1218-1258 | the same of every such event of every run |
| FenceNews.KickedExactly | fence/fenced/cpg.c:1306-1329 | over every run, a node is kicked out of the cluster if and only if a configuration reported its process dead |
| FenceNews.ExternalNews | fence/fenced/cpg.c:433-445 | news of an external fencing later than a node's last start makes it count as fenced externally |
| FenceNews.ExternalAverts | fence/fenced/cpg.c:529-543 | it goes on counting as fenced externally under every run without a start of it or further news about it |
| FenceRecord.NewChangeExactly | fence/fenced/cpg.c:1270-1367 | a new change has the configuration's members, marks exactly the joined ones, counts who joined, left and failed, and every joined peer has a history |
| FenceRecord.FlagsExactly | fence/fenced/cpg.c:1017-1052 | over every run: the domain is freed exactly after a request to leave and our departure, initialised exactly after a complete message that lists us, master-complete exactly after we led an end, and considers the configured nodes exactly until we join |
| FenceRecord.ClusterAddExactly | fence/fenced/cpg.c:326-343 | over every run, a known node came to the cluster when it was last reported to have |
| FenceHistory.SaveFills | fence/fenced/cpg.c:447-486 | saving a message's entries one by one keeps what is known of a node and takes what is not from the first entry that knows it |
| FenceHistory.HistoryExactly | fence/fenced/cpg.c:600-647 | after every event, what is known of a node is what was known, filled in or overwritten by what the event says, and then by our own latest report about it |
| FenceVictims.StepVictims | fence/fenced/cpg.c:600-647 | each event keeps the victim list free of repetitions, and a node is a victim afterwards if and only if it was one and was not released, or the configuration made it one |
| FenceVictims.NeverTwice | fence/fenced/cpg.c:1175-1199 | no run ever lists a node twice |
| FenceVictims.GoneOnlyIfReleased | fence/fenced/cpg.c:1017-1052 | a victim that has gone was released by one event of the run: a victim-done naming it, the first complete message that lists us, or reduction as a clean member |
| FenceVictims.DelayKeeps | fence/fenced/recover.c:174-236 | waiting before fencing removes exactly the victims some poll found to be clean cluster members |
| FenceVictims.FenceKeeps | fence/fenced/recover.c:283-417 | fencing takes nobody off the list and settles everybody on it |
| FenceVictims.AddVictimsExactly | fence/fenced/cpg.c:1175-1199 | exactly the failed nodes of a change are added, none twice |
| FenceVictims.AddInitExactly | fence/fenced/cpg.c:1372-1389 | a joining node presumes exactly the configured nodes that are absent everywhere to be victims |
| FenceRejoin.CleanExcuses | fence/fenced/cpg.c:2108-2133 | at any moment after we became stateful, a peer that counts as clean has, if it left since then, rejoined and sent a message without the stateful flag |
| FenceRejoin.StepNotes | fence/fenced/cpg.c:1218-1258 | only an event that ends a change with us as the master reports victims, and those reported by membership were found clean in it |
| FenceRejoin.SparedOnlyIfClean | fence/fenced/recover.c:62-81 | in every joint run of a domain and the daemon group, in which ending a change marks us stateful and every question dispatches the group anew: a peer reported done by membership was clean at a moment after our first completion, and if it left the group in between it had rejoined and sent a message without the stateful flag |
| FenceDaemon.Daemon.constructor | fence/fenced/cpg.c:1552-1601 | a new domain |
| FenceDaemon.Daemon.FindMemb | fence/fenced/cpg.c:239-248 | the list scan finds what FindMemb defines |
| FenceDaemon.Daemon.IsVictim | fence/fenced/recover.c:38-47 | true if and only if the node is on the victim list |
| FenceDaemon.Daemon.IsAdded | fence/fenced/cpg.c:937-948 | true if and only if some pending change shows the node as added |
| FenceDaemon.Daemon.ShownAsMember | fence/fenced/cpg.c:763-775 | the first entry for a node in a message |
| FenceDaemon.Daemon.MatchChange | fence/fenced/cpg.c:779-868 | every test a message must pass to belong to a change |
| FenceDaemon.Daemon.FindChange | fence/fenced/cpg.c:922-935 | the search from the oldest change on |
| FenceDaemon.Daemon.SaveHistory | fence/fenced/cpg.c:447-486 | the history a message carries is taken over entry by entry |
| FenceDaemon.Daemon.ReceiveStart | fence/fenced/cpg.c:950-1015 | the in-place handling of a start message is the machine's |
| FenceDaemon.Daemon.ReceiveVictimDone | fence/fenced/cpg.c:600-647 | the named victim leaves the list, all others stay in order |
| FenceDaemon.Daemon.ReceiveComplete | fence/fenced/cpg.c:1017-1052 | the first complete message that lists us empties the list |
| FenceDaemon.Daemon.ReceiveExternal | fence/fenced/cpg.c:433-445 | an external fencing is noted |
| FenceDaemon.Daemon.Done | fence/fenced/recover.c:49-57 | how a victim was dealt with is noted and broadcast |
| FenceDaemon.Daemon.ReduceVictims | fence/fenced/recover.c:62-81 | the deleting scan removes what one pass of the machine removes |
| FenceDaemon.Daemon.DelayFencing | fence/fenced/recover.c:174-236 | polling until the delay is over or nobody is left |
| FenceDaemon.Daemon.FenceVictims | fence/fenced/recover.c:283-417 | every victim in turn is fenced or excused |
| FenceDaemon.Daemon.CheckQuorumDone | fence/fenced/cpg.c:649-686 | flags are cleared exactly for the nodes the cluster has seen fail, and the answer is that none is left and the cluster is quorate |
| FenceDaemon.Daemon.WaitMessagesDone | fence/fenced/cpg.c:695-715 | true if and only if every member of the newest change has started |
| FenceDaemon.Daemon.SetMaster | fence/fenced/cpg.c:739-761 | the two scans give the machine's master |
| FenceDaemon.Daemon.CleanupChanges | fence/fenced/cpg.c:717-737 | all older changes go and the start counter skips zero |
| FenceDaemon.Daemon.ApplyChanges | fence/fenced/cpg.c:1218-1258 | the three-state machine of the newest change |
| FenceDaemon.Daemon.NoteLeft | fence/fenced/cpg.c:1306-1329 | who left or failed, with history flags and cman kicks |
| FenceDaemon.Daemon.MarkJoined | fence/fenced/cpg.c:1331-1347 | joined members are marked, up to the first non-member |
| FenceDaemon.Daemon.AddChange | fence/fenced/cpg.c:1270-1367 | a configuration becomes the newest pending change or is refused |
| FenceDaemon.Daemon.AddVictims | fence/fenced/cpg.c:1175-1199 | failed nodes become victims in place |
| FenceDaemon.Daemon.AddVictimsInit | fence/fenced/cpg.c:1372-1389 | absent nodes become victims in place |
| FenceDaemon.Daemon.ConfchgCb | fence/fenced/cpg.c:1403-1457 | a delivered configuration, our own departure included |
| FenceDaemon.Daemon.Handle | fence/fenced/cpg.c:1472-1527 | every delivered event moves the object as the machine moves its value |
| DaemonGroup.Least | fence/fenced/cpg.c:1720-1730 | of nonzero values the scan with zero for "none" finds the minimum |
| DaemonGroup.GroupState.ConfchgCb | fence/fenced/cpg.c:2038-2090 | joins and departures update every daemon's record |
| DaemonGroup.GroupState.ReceiveProtocolMsg | fence/fenced/cpg.c:1778-1884 | a protocol message is stored, ignored or adopted |
| DaemonGroup.GroupState.AllProtocolMessages | fence/fenced/cpg.c:1688-1708 | true if and only if every member's maximum is known |
| DaemonGroup.GroupState.LeastMajor | fence/fenced/cpg.c:1718-1735 | the first scan |
| DaemonGroup.GroupState.LeastMinor | fence/fenced/cpg.c:1737-1753 | the second scan, over members with the least major |
| DaemonGroup.GroupState.LeastPatch | fence/fenced/cpg.c:1755-1772 | the third scan |
| DaemonGroup.GroupState.PickMinProtocol | fence/fenced/cpg.c:1710-1776 | the three scans compute the machine's proposal |
| DaemonGroup.GroupState.IsCleanDaemonMember | fence/fenced/cpg.c:2108-2133 | the answer used to spare victims |
| DaemonGroup.GroupState.SetStateful | fence/fenced/cpg.c:1235-1238 | our own stateful flag |
| DaemonGroupSafety.CleanExactly | fence/fenced/cpg.c:1847-1870 | over every run, a peer counts as clean if and only if its latest membership includes a well-formed message of it that we took |
| DaemonGroupSafety.CleanRejoin | fence/fenced/cpg.c:2066-2084 | once we are stateful, a peer that left is clean again only through a message without the stateful flag since its latest join |
| DaemonGroupSafety.RunsFirst | fence/fenced/cpg.c:1778-1884 | every daemon runs the first nonzero version delivered to it |
| DaemonGroupSafety.SameVersion | fence/fenced/cpg.c:1778-1884 | two daemons with the same deliveries since before the first nonzero version run the same version |
| DaemonGroupSafety.VersionNeverChanges | fence/fenced/cpg.c:1778-1884 | a version once adopted stays, whatever is delivered and whenever we become stateful |
| DaemonGroupSafety.PickIsLeast | fence/fenced/cpg.c:1710-1776 | the proposal is one member's maximum and lexicographically at most every member's |
| DaemonGroupSafety.ProposalIsLeast | fence/fenced/cpg.c:1710-1776 | that holds in every reachable state in which a proposal is due |
| DaemonGroupKicks.KickedExactly | fence/fenced/cpg.c:1847-1870 | over every run, exactly those peers are kicked that returned with state and unvouched for to a stateful daemon which was quorate and had been since before it saw them leave |
| DaemonGroupKicks.KickedOncePerStay | fence/fenced/cpg.c:1857-1864 | a peer is kicked only by the first such message since it last left |
| QdiskNodes.ReadNodeBlocks | cman/qdisk/main.c:162-214 | a cycle's reads update every node's record and count the blocks that could not be read, and we halt if and only if another daemon has condemned us |
| QdiskNodes.CheckTransitions | cman/qdisk/main.c:221-422 | the in-place pass moves every node through its one case, builds the mask, and writes eviction notices exactly for the undead and, as master, for the timed out |
| QdiskNodes.Judge | cman/qdisk/main.c:221-422 | the first case that applies to a node decides its record, its bit and its notice |
| QdiskNodes.TransitionExactly | cman/qdisk/main.c:221-422 | a pass keeps a node's record coherent if and only if it does not believe a block without incarnation; the sixth case never applies to a coherent record |
| QdiskNodes.OnlyLiveBelieved | cman/qdisk/main.c:162-422 | after every pass of every run a node believed running has a nonzero incarnation equal to its block's, no evil incarnation, and the sixth case was not taken |
| QdiskNodes.NoIncarnationBreaksIt | cman/qdisk/main.c:353-410 | a concrete run with a zero incarnation reaches the sixth case |
| QdiskNodes.OwnNumber | cman/qdisk/main.c:115-129 | a slot's record names the slot's node |
| QdiskNodes.MaskExactly | cman/qdisk/main.c:221-422 | the mask is the set of nodes whose case sets their bit |
| QdiskNodes.MaskIsBelieved | cman/qdisk/main.c:221-422 | after every pass of every run the mask is exactly the set of nodes believed running |
| QdiskNodes.OwnSlotIdle | cman/qdisk/main.c:162-214 | our own slot is never believed running |
| QdiskSilence.SilenceExactly | cman/qdisk/main.c:162-422 | over every run, a believed node whose block can be read is given up if and only if the block shows the same running incarnation and repeated its timestamp more than tko times; stays believed, in the state its block shows, if and only if it repeated it less; and is off line with a blank record if and only if the block shows no such node |
| QdiskSilence.UnreadableKeeps | cman/qdisk/main.c:172-179 | a block that cannot be read gives nobody up for silence |
| QdiskSilence.BelievedExactly | cman/qdisk/main.c:353-378 | from a blank record, the first thing decided about a node is that it is believed if and only if it has shown more than tkoUp changed timestamps and is not silent for too long, and that it is given up if and only if it is |
| QdiskSilence.NoticesExactly | cman/qdisk/main.c:221-351 | exactly the undead nodes, and for a master the timed-out ones, are sent a notice |
| QdiskSilence.NoticeForSilence | cman/qdisk/main.c:275-318 | over every run, a believed node is sent a notice if and only if we are master and its readable block shows the same life and more than tko repetitions |
| QdiskSilence.UndeadExactly | cman/qdisk/main.c:319-350 | a node just given up that writes again itself in the same incarnation is undead if and only if its timestamp changed |
| QdiskUndead.StaysUndead | cman/qdisk/main.c:319-350 | however long an undead node keeps writing, it gets a notice at every look and is not believed |
| QdiskUndead.NoticeIsRead | cman/qdisk/main.c:236-267 | the first notice read puts it off line and forgets everything but that it is evil |
| QdiskUndead.ShutdownForgives | cman/qdisk/main.c:236-267 | a clean shutdown makes the record blank |
| QdiskUndead.UndeadReturnsExactly | cman/qdisk/main.c:319-378 | an undead node that keeps writing until a notice is read is then believed if and only if a notice was read before and it has been seen more than tkoUp times since |
| QdiskUndead.UndeadIsBelieved | cman/qdisk/main.c:353-378 | for every tkoUp there are such looks |
| QdiskElection.SearchMeaning | cman/qdisk/main.c:430-489 | the search finds a claim if there is one, counts none only if there is none, and no running candidate is below the lowest id |
| QdiskElection.MasterExists | cman/qdisk/main.c:430-489 | the loop computes first claim, lowest id and count |
| QdiskElection.VoteIsLowest | cman/qdisk/main.c:574-595 | in a disk with ordered slots a vote goes to the lowest running bidder below us |
| QdiskElection.DoVote | cman/qdisk/main.c:574-595 | the loop gives that vote |
| QdiskElection.LowestVoteMeaning | cman/qdisk/main.c:639-678 | counting votes touches our message if and only if a lower node bids, and then votes for the lowest |
| QdiskElection.CheckVotes | cman/qdisk/main.c:639-678 | the verdict is 3 if and only if every running node acknowledges us, else 2 on a refusal, else 1 on a lower bid, else 0 |
| QdiskElection.Loop.constructor | cman/qdisk/main.c:929-937 | the loop's variables at start |
| QdiskElection.Loop.Tally | cman/qdisk/main.c:1064-1091 | a bidder's cycle with its fallthroughs |
| QdiskElection.Loop.Cycle | cman/qdisk/main.c:975-1091 | one cycle: score, conflict, bid, vote or count |
| QdiskElection.BidStands | cman/qdisk/main.c:975-1091 | after every run a pending bid has the bid message in our block, and only a running non-master bids |
| QdiskElection.BecomesMasterExactly | cman/qdisk/main.c:1064-1091 | a daemon becomes master if and only if its bid is old enough, its score holds, it sees no master and every running node acknowledges it |
| QdiskElection.ElectionSafe | cman/qdisk/main.c:639-678 | two bidders with all acknowledgements after a cycle over the same blocks see neither each other nor a common node, whatever each believed before and whomever it timed out or found undead in that cycle |
| QdiskElection.MastersApart | cman/qdisk/main.c:975-1091 | the same for two whole runs that end with both daemons making themselves master in a cycle over the same blocks |
| QdiskElection.TwoWinnersExactly | cman/qdisk/main.c:639-678 | a snapshot that both daemons reach by reading the disk and that makes both winners exists if and only if the two views share nothing and contain neither bidder |
| QdiskDuty.StaysMasterExactly | cman/qdisk/main.c:1026-1040 | over every run, a master stays master if and only if its score suffices and nobody claims to be master before it; challenged it steps back and waits; without the score it is out |
| QdiskDuty.BidsExactly | cman/qdisk/main.c:1043-1057 | over every run, a running daemon without a bid bids if and only if its score suffices, it sees no master, no running node has a lower id, and its wait is over |
| QdiskDuty.KeepsBidExactly | cman/qdisk/main.c:1064-1091 | over every run, a bid is kept exactly while votes are missing or complete too soon; a refusal withdraws it and a lower bid turns it into a vote for the lowest bidder |
| QdiskDuty.VotesExactly | cman/qdisk/main.c:1058-1062 | over every run, a running daemon that sees no master and does not bid answers the bid of the first lower running bidder by its id and number, and says nothing new without one |
| QdiskDuty.NoEarlyBid | cman/qdisk/main.c:979-981 | over every run, a daemon that came to run has no bid in the next upgradeWait cycles through which it runs |
| QdiskDuty.MasterSeen | cman/qdisk/main.c:430-489 | a master is seen if and only if our block, or that of a node believed to be past its start, says so |
| ClusterQuorum.RaisesQuorum | cman/daemon/commands.c:328-378 | a recalculation that may not lower the quorum raises it above half the highest expected votes |
| ClusterQuorum.QuorumNeverFalls | cman/daemon/commands.c:328-388 | over every run without two-node mode and lowering recalculations the quorum never falls, is above half the highest expected votes ever counted if and only if those are below 2^32 - 2, and a quorate daemon had that many votes |
| ClusterQuorum.HalfExceeds | cman/daemon/commands.c:355-359 | the unsigned half is above half if and only if adding two does not wrap |
| ClusterQuorum.HugeExpectedWraps | cman/daemon/commands.c:355-359 | a run that counts 2^32 - 2 expected votes and is quorate with one vote |
| ClusterQuorum.NoTwoQuorate | cman/daemon/commands.c:186-216 | two daemons with disjoint members, the device on at most one side, that each once counted expected votes of at least all the votes of both sides, are not both quorate |
| ClusterQuorum.VotesAreWeight | cman/daemon/commands.c:328-350 | the scan's total is the weight of the set of members |
| ClusterQuorum.LoneTwoNode | cman/daemon/commands.c:366-373 | in two-node mode every node, alone, is quorate with its one vote of the two it counted, so that two separate nodes both are |
| ClusterCurrent.AlwaysUpToDate | cman/daemon/commands.c:2224-2307 | over every run without edits, the nodes and the device counted last are the current ones, and the flag says whether their votes reach the quorum |
| ClusterCurrent.QuorateExactly | cman/daemon/commands.c:2224-2307 | over every run without edits, once anything was counted, a daemon is quorate if and only if the quorum is at most the signed total of the weight of its current members and the device's votes, and the configuration is sound |
| ClusterCurrent.NoTwoQuorateNow | cman/daemon/commands.c:186-216 | two daemons whose current members are disjoint, with the device on at most one side, that each once counted expected votes of at least all votes of both sides, are not both quorate |
| ClusterCurrent.MembersExactly | cman/daemon/commands.c:2224-2307 | from nodes that are all down, the members after every run without edits are exactly the nodes the messaging layer has present |
| ClusterCurrent.DeviceExactly | cman/daemon/commands.c:1265-1312 | over every run without edits, the device counts exactly while it was last reported up |
| ClusterCurrent.LoweredOnlyOnPurpose | cman/daemon/commands.c:328-378 | only a request that allows it, or the departure of a node removed on purpose, lowers the quorum |
| ClusterCurrent.QuorumIsLeast | cman/daemon/commands.c:328-378 | a recalculation sets the least majority of expected and present votes not below the old quorum where that must be kept, and one vote only for at most two nodes in two-node mode |
| ClusterCurrent.RemovalLowers | cman/daemon/commands.c:2291-2300 | when a node removed on purpose goes, the quorum is the least majority of those who stay, and every member expects their number |
| ClusterCurrent.CountExactly | cman/daemon/commands.c:2224-2307 | every event but an edit keeps the number of members right if and only if it does not report a leaving node anew |
| ClusterCurrent.RejoinCountsTwice | cman/daemon/commands.c:2246-2252 | one such node counted twice |
| ClusterCurrent.DepartureExactly | cman/daemon/commands.c:2256-2307 | a departed node is dead unless it was only joining, and no other node changes its state |
| ClusterDaemon.Manager.constructor | cman/daemon/commands.c:439-471 | no votes counted yet |
| ClusterDaemon.Manager.FindNode | cman/daemon/commands.c:2333-2342 | the first entry with an id, or none |
| ClusterDaemon.Manager.AddOrdered | cman/daemon/commands.c:229-250 | a new node goes before the first with a greater id |
| ClusterDaemon.Manager.CountVotes | cman/daemon/commands.c:337-348 | total, highest expected votes and members, with the forced value written into the members |
| ClusterDaemon.Manager.CalculateQuorum | cman/daemon/commands.c:328-378 | the new quorum in unsigned arithmetic |
| ClusterDaemon.Manager.SetQuorate | cman/daemon/commands.c:186-227 | quorate if and only if the votes reach the quorum and the configuration is sound; strangers are told to leave when the cluster becomes quorate |
| ClusterDaemon.Manager.RecalculateQuorum | cman/daemon/commands.c:381-388 | both together, in place |
| ClusterDaemon.Manager.AddAisNode | cman/daemon/commands.c:2224-2254 | a reported node becomes a member; an unknown one gets an entry; strangers are told to leave exactly when that makes the cluster quorate |
| ClusterDaemon.Manager.DelAisNode | cman/daemon/commands.c:2256-2307 | a node goes, and only a removed one may lower the quorum; strangers are told to leave exactly when that makes the cluster quorate |
| ClusterDaemon.Manager.DeviceTold | cman/daemon/commands.c:1265-1312 | the quorum device comes or goes; strangers are told to leave exactly when that makes the cluster quorate |
| Barrier.BarrierSafe | cman/daemon/barrier.c:63-150 | in every run, timeouts included, a client is told 0 only after as many different nodes as named have sent WAIT, and is told at most once |
| Barrier.StepKeeps | cman/daemon/barrier.c:175-210 | every step of every node and of the total order keeps the invariant behind it |
| Barrier.ActHealthy | cman/daemon/barrier.c:92-150 | what one command, message or timer may do to a barrier, to its client and to the broadcast |
| Barrier.OneMoreWaiter | cman/daemon/barrier.c:191-200 | each counted WAIT is that of a further node |
| Barrier.WaiterIsTold | cman/daemon/barrier.c:63-150 | in every run, a waiting client is told by the first thing that ends its wait, and told what that was |
| Barrier.LateComerIsTold | cman/daemon/barrier.c:361-383 | in every run, a client that waits for a completed barrier is told at once how it ended |
| Barrier.LastWaitCompletes | cman/daemon/barrier.c:92-112 | COMPLETE is broadcast once, with the last expected WAIT and not before |
| BarrierLife.LifeExactly | cman/daemon/barrier.c:63-383 | after every sequence of actions on a registered barrier it is gone if and only if it was deleted or ended while deletion was wanted; otherwise state, result, WAIT, answer, deletion wish and timer are what those actions make them |
| BarrierLife.ToldExactly | cman/daemon/barrier.c:63-75 | the client is told something exactly when it is first answered: how the barrier ended, or that a node is missing |
| BarrierLife.WaitSentExactly | cman/daemon/barrier.c:255-294 | our WAIT is broadcast exactly when the barrier is first enabled or waited for and the broadcast works |
| BarrierLife.RefusedKeeps | cman/daemon/barrier.c:214-383 | a refused or ignored call changes, tells and broadcasts nothing, and only refused ones fail |
| BarrierLife.LateWaitCounts | cman/daemon/barrier.c:139-150 | a barrier that has timed out counts a later WAIT |
| BarrierRepeat.RepeatExactly | cman/daemon/barrier.c:214-294 | over all runs whose registrations name one count and may repeat, being told 0 means WAITs of that many nodes if and only if the count is at most one |
| BarrierRepeat.RegisteringAgainBreaksIt | cman/daemon/barrier.c:214-294 | for every count from one up, a run in which one node that registers again completes the barrier by itself |
| BarrierRepeat.RunSane | cman/daemon/barrier.c:175-210 | however often nodes register, nobody is told 0 and no COMPLETE is sent before some WAIT was ordered |
| BarrierDaemon.Barriers.constructor | cman/daemon/barrier.c:468-471 | an empty list |
| BarrierDaemon.Barriers.SendComplete | cman/daemon/barrier.c:63-75 | the client is told once and the timer is dropped |
| BarrierDaemon.Barriers.CompletePhase2 | cman/daemon/barrier.c:116-136 | completion, with deletion if asked for |
| BarrierDaemon.Barriers.ProcessMsg | cman/daemon/barrier.c:175-210 | a message changes the named barrier as the machine says, the last expected WAIT broadcasts COMPLETE, and no other barrier changes |
| BarrierDaemon.Barriers.TimerFn | cman/daemon/barrier.c:139-150 | so does the timer |
| BarrierDaemon.Barriers.Register | cman/daemon/barrier.c:214-253 | registration with its errors |
| BarrierDaemon.Barriers.SetEnabled | cman/daemon/barrier.c:255-294 | our WAIT is broadcast once |
| BarrierDaemon.Barriers.SetAutoDelete | cman/daemon/barrier.c:296-316 | the deletion flag of an unfinished barrier |
| BarrierDaemon.Barriers.SetTimeout | cman/daemon/barrier.c:318-325 | only an inactive barrier's timeout changes |
| BarrierDaemon.Barriers.Delete | cman/daemon/barrier.c:346-359 | the named barrier goes |
| BarrierDaemon.Barriers.Wait | cman/daemon/barrier.c:361-383 | waiting enables first, and reports at once what has completed |
| ReplyQueue.StreamIntact | cman/daemon/daemon.c:62-107 | for every sequence of full, short, blocked and failed sends, the bytes received followed by those queued are the accepted replies in order; the counter is the queue's length and at most one above the limit |
| ReplyQueue.AcceptedExactly | cman/daemon/daemon.c:62-107 | when a reply is accepted, when it is dropped without a trace and when the client is disconnected |
| ReplyQueue.AdvancedStream | cman/daemon/daemon.c:154-159 | a short send loses no byte |
| ReplyQueue.SentAtOnce | cman/daemon/daemon.c:62-107 | with an empty queue the socket gets as much of a reply as it takes, at once |
| ReplyQueue.FlushSends | cman/daemon/daemon.c:137-166 | a writable socket that takes anything of the head of the queue gets as much of it as it takes |
| ReplyQueue.FlushDrains | cman/daemon/daemon.c:137-166 | a socket that takes everything leaves the queue empty |
| ReplyQueue.Connection.constructor | cman/daemon/daemon.c:340-346 | an empty queue |
| ReplyQueue.Connection.SendReply | cman/daemon/daemon.c:62-107 | the in-place handler is the machine's and keeps the stream intact |
| ReplyQueue.Connection.SendHead | cman/daemon/daemon.c:145-159 | the head of the queue leaves whole, in part or not at all |
| ReplyQueue.Connection.SendQueued | cman/daemon/daemon.c:137-166 | the loop sends as far as the socket takes, and keeps the stream intact |
| GfsHeights.DivideBack | gfs/gfs_debug/basic.c:79-87 | dividing a 64-bit product back recovers the factor without remainder if and only if the product did not wrap |
| GfsHeights.TenEntriesSuffice | gfs/gfs_debug/basic.c:71-101 | for every accepted block size the product wraps within the ten entries of a table |
| GfsHeights.NextEntry | gfs/gfs_debug/basic.c:79-86 | one round of the loop |
| GfsHeights.BuildHeights | gfs/gfs_debug/basic.c:71-101 | the loop ends inside the table, every entry is the true product and the first one that does not fit is where it stops |
| GfsHeights.TableExactly | gfs/gfs_debug/basic.c:77-101 | the entries are true file sizes if and only if the first one, a 32-bit product, fits 32 bits |
| GfsHeights.TableWraps | gfs/gfs_debug/basic.c:77-78 | with blocks of 256 KiB the first entry of every table is 4 GiB too small |
| GfsTree.MetapathExactly | gfs/gfs_debug/util.c:158-177 | the digits of every block the tree holds recombine to it, the top one is below the dinode's pointer count and the others below an indirect block's |
| GfsTree.MetapathUnique | gfs/gfs_fsck/fs_bmap.c:267-276 | no other digits recombine to the block |
| GfsTree.NextBlock | gfs/gfs_fsck/fs_bmap.c:485-504 | stepping the last digit within its metadata block steps the logical block |
| GfsTree.MapIsLeaf | gfs/gfs_debug/util.c:196-246 | following the digits reaches the leaf that an in-order reading of the tree assigns to the block |
| GfsBytes.BigEndianExactly | gfs/gfs_fsck/ondisk.h:609-615 | the digits of the number to base 256 are the bytes, the first the most significant, and the number is below 256 to their count |
| GfsBytes.PtrBytes | gfs/gfs_debug/util.c:179-193 | a pointer is the number whose eight digits are the bytes of its place behind the header |
| GfsBytes.NodeSpelled | gfs/gfs_fsck/fs_bmap.c:290-302 | every metadata block on a path is spelled by eight bytes of the one above it |
| GfsBytes.MapSpelled | gfs/gfs_debug/util.c:196-246 | the block a tree gives for a logical block is spelled, level by level, by the eight bytes its digits select |
| GfsMap.CalcTreeHeight | gfs/gfs_debug/util.c:130-156 | the least table height that holds both the file and the requested size |
| GfsMap.HeightCheck | gfs/gfs_fsck/fs_bmap.c:154-176 | the check passes if and only if the tree holds the block and the whole file |
| GfsMap.FindMetapath | gfs/gfs_debug/util.c:158-177 | the loop from the last digit up computes the digits |
| GfsMap.Descend | gfs/gfs_fsck/fs_bmap.c:314-362 | following the pointers reaches the metadata block of the path, stopping at holes and read errors |
| GfsMap.GfsBlockMap | gfs/gfs_debug/util.c:196-246 | the mapped block, spelled level by level by the eight bytes its digits select; a hole; or an error exactly when the tree cannot be read |
| GfsMap.FsBlockMap | gfs/gfs_fsck/fs_bmap.c:418-519 | the same block with an extent every block of which maps to its successor |
| GfsMap.GrowExtent | gfs/gfs_fsck/fs_bmap.c:485-504 | the extent grows over consecutive pointers of one metadata block, as far as they go |
| GfsRead.GfsReadi | gfs/gfs_debug/util.c:266-333 | what is copied is the file's bytes from the offset on, holes as zeros; on a sound file all that is available up to its size; nothing behind it is written |
| GfsRead.Readi | gfs/gfs_fsck/file.c:17-101 | the same with extents kept between blocks |
| GfsRead.ReadBoth | gfs/gfs_fsck/file.c:17-101 | on every sound file, for every offset and size, both return the same count and the same bytes |
| GfsRead.NextOfExtent | gfs/gfs_fsck/file.c:65-84 | a block taken from the extent in hand is the one mapping it would give |
| GfsRead.Advance | gfs/gfs_debug/util.c:300-327 | one round of the read loop extends the file's bytes |
| GfsRead.PositionExactly | gfs/gfs_fsck/file.c:40-60 | every file position is one byte behind the header of one block, and every such byte one position |
| HashRuns.RunStarts | gfs/gfs_debug/util.c:84-128 | in an extendible table the walk never lands inside a run |
| HashRuns.AllOnce | gfs/gfs_debug/util.c:84-128 | a complete walk visits each distinct leaf once, for exactly the slots that name it |
| GfsDirectory.ReadSlot | gfs/gfs_debug/util.c:102-112 | the pointer taken from the buffer is the table's entry at the index |
| GfsDirectory.NextLeaf | gfs/gfs_debug/util.c:102-118 | the leaf at the index and the length of its run |
| GfsDirectory.SlotSpelled | gfs/gfs_debug/util.c:102-112 | a slot is the number whose eight digits are the file's bytes at eight times its index |
| GfsDirectory.LeafDepthBytes | gfs/gfs_debug/util.c:116-118 | a leaf's depth is spelled by the two bytes behind its header |
| GfsDirectory.ForeachLeaf | gfs/gfs_debug/util.c:84-128 | the walk ends; its ranges tile the table without gap or overlap; on a well-formed table it does not die and visits each leaf exactly once |
| ResourceBits.SetBit | gfs/gfs_fsck/fs_bits.c:15-33 | exactly one block changes, to the new state, or the block lies beyond the buffer; more than two bits of state spill only into later blocks of the byte |
| ResourceBits.BitFit | gfs/gfs_fsck/fs_bits.c:97-131 | the byte-skipping search returns the least block from the goal on in the state, or none has it |
| ResourceBits.SkipIsSafe | gfs/gfs_fsck/fs_bits.c:108-118 | a skipped byte holds no block in the state |
| ResourceBits.BitCount | gfs/gfs_fsck/fs_bits.c:143-165 | the number of blocks in a state |
| ResourceBits.CountsAddUp | gfs/gfs_fsck/fs_bits.c:143-165 | the four counts make up four per byte |
| ResourceBits.SetMovesOne | gfs/gfs_fsck/fs_bits.c:15-33 | changing one block moves one unit from the old state's count to the new one's |
| Bitmap.AddedChunk | gfs/gfs_fsck/bitmap.c:60-74 | setting adds to one chunk of a byte and leaves the others |
| Bitmap.ClearedChunk | gfs/gfs_fsck/bitmap.c:93-108 | clearing empties one chunk of a byte and leaves the others |
| Bitmap.Bmap.Create | gfs/gfs_fsck/bitmap.c:23-58 | which chunk sizes are refused, that zero dies, and a new bitmap is empty |
| Bitmap.Bmap.Set | gfs/gfs_fsck/bitmap.c:60-74 | the block's chunk is added to, all others stay, or the block is out of range |
| Bitmap.Bmap.Get | gfs/gfs_fsck/bitmap.c:76-90 | the block's chunk, or out of range |
| Bitmap.Bmap.Clear | gfs/gfs_fsck/bitmap.c:93-108 | the block's chunk is emptied, all others stay, or the block is out of range |
| BlockList.Blocks.constructor | gfs/gfs_fsck/block_list.c:19-81 | every block free and unmarked |
| BlockList.Blocks.Mark | gfs/gfs_fsck/block_list.c:83-111 | a mark is added to what a block has, and other blocks stay |
| BlockList.Blocks.Clear | gfs/gfs_fsck/block_list.c:154-172 | a block loses every mark, and other blocks stay |
| BlockList.Blocks.Set | gfs/gfs_fsck/block_list.c:113-120 | a block then answers exactly the new mark, and other blocks stay |
| BlockList.Blocks.Check | gfs/gfs_fsck/block_list.c:174-215 | the block's type and flags; beyond the end an error that reads as free |
| BlockAlloc.BitFitCore | gfs/gfs_fsck/fs_bits.c:35-87 | the first block from the goal on in the state, or none |
| BlockAlloc.ClampExactly | gfs/gfs_fsck/fs_bits.c:186-188 | the relative goal is the intended one if and only if the 32-bit cut is harmless |
| BlockAlloc.ClampMisses | gfs/gfs_fsck/fs_bits.c:186-188 | a goal for which it is not |
| BlockAlloc.ClampGoal | gfs/gfs_fsck/fs_bits.c:186-188 | the cut in the program's arithmetic |
| BlockAlloc.SetState | gfs/gfs_fsck/fs_bits.c:208-221 | the block becomes one of the new state and no other block changes |
| BlockAlloc.BlkAlloc | gfs/gfs_fsck/fs_bits.c:179-223 | the first block from the clamped goal on in the old state moves to the new one and no other block changes; or none exists from the goal on |

## Left out

- Decoding of domain and daemon messages: headers, lengths, byte order and the checks of their versions.
- The older group-library mode of the fence daemon, and join, leave and failure times kept for queries only.
- Attempts of the fencing retry loop that fail and are repeated: they change nothing; the last attempt on each victim is an argument.
- Clocks of the fencing delay: a delay is a sequence of polls.
- The change sequence number of a domain is unbounded; its 32-bit wrap is not modelled.
- Lists with unique keys (node history, daemon records, barriers) are maps; their order plays no part.
- Agreement of victim lists across daemons: the code does not keep it.
- The quorum-disk membership mask is a set of bits; counters of misses, sightings and pending cycles do not overflow; votes, reboots and replies to the cluster manager in a cycle are not modelled.
- Cluster manager: flags, ports, names and fence data of a node; shutdown voting; commands that set votes or expected votes enter as edits followed by a recalculation.
- MembersExactly: a node that is reported while it is the only one is one of the configuration; the program takes an unknown one to be ourselves.
- QuorumIsLeast: fewer than 2^31 votes and expected votes; beyond that the unsigned arithmetic wraps (`HalfExceeds`, `HugeExpectedWraps`).
- RemovalLowers: the same bounds.
- Barriers with a count of zero, meaning every member, are in the machine but not in the safety theorem; so is changing the count of a registered barrier.
- ReplyQueue: closing a connection after a read error, and failure to allocate a queued reply.
- GfsReadi: blocks of at most 128 KiB, because the height tables are wrong above (`TableWraps`); requests below 2^31, because the count is returned in a signed int; files below 2^63. An error or a partial count stands for the exit of the program, whose block reader does not return on failure.
- Readi: the same block, request and file sizes.
- ReadBoth: the same block, request and file sizes.
- GfsBlockMap: an error stands for the exit of the program at a metadata block it cannot read.
- ForeachLeaf: no leaf is deeper than the directory, where the program shifts by a negative amount; a well-formed table fills whole buffers, because the program dies on a shorter read.
- Check: the extended-attribute flag of an out-of-range block is not set by the program; the model answers zero.
- BlkAlloc: assumes that block numbers stay 2^32 below the end of the 64-bit range.
- BitFit: assumes that the blocks of a buffer are numbered in 32 bits, which its result type needs.
- Writing files, unstuffing a dinode and growing a tree: the growth path stops the program.
- The list of block sizes accepted at mount time is a set.
- Allocation failure, logging, status files, the lock manager and the command-line tools.
