# Aurum: a verified model of its protocols

Aurum is a library of typed actors and clusters. This project models, in Dafny 4.11, the parts of it whose
correctness rests on invariants rather than on single functions, and proves those invariants:

- **Delta-CRDT anti-entropy** (`Lattices`, `Causal`, `CausalActor`, `CausalNet`, `CausalProgress`, `CausalStarving`,
  `CausalTimers`, `CausalOnward`, `CausalExamples`, `Devices`).
  `CausalActor` is the replica as the actor keeps it, with fields updated in place; `Causal` says what that state
  means; `CausalNet` runs any number of replicas over a network that loses, repeats, delays and reorders
  everything, and proves that acknowledgements are sound and that settled replicas agree on exactly the join of
  all deltas. `CausalProgress` proves that a group settles by timeouts and deliveries alone if each member's dispersal
  preference serves the others and those with a timer pending teach those without; `CausalOnward` that it still can
  after any run that leaves its peers and preferences alone. `CausalStarving` proves the condition on preferences exact
  where whoever is passed over has only silent peers ahead, and `CausalTimers` the one on timers exact where nothing
  outside the group is news to it; `CausalExamples` runs the model into the two ways to miss them. `Devices` is the
  concrete lattice.
- **The consistent-hash ring and gossip membership** (`Ring`, `Monitoring`, `NodeRing`, `IsManager`, `Disruption`,
  `Gossip`, `Members`, `Cluster`, `ClusterFeed`). The forward walk of the ring and the separately written backward walk
  are proved inverse. Every handler of the cluster actor keeps gossip, member set, ring, charges and managers in
  agreement, and the updates it publishes are the ones the dispersing actor can handle, whenever it reads them.
- **Datagram fragmentation and reassembly** (`Packets`, `UdpSerial`, `MessageBuilder`, `UdpReceiver`,
  `Delivery`, `SocketLoop`, `SocketDelivery`). Headers, cutting, the overlapping slots of the one reassembly buffer, the
  table of unfinished messages, whole runs of the receiver over what it reads, which datagrams it gets to read, and
  exactly which orders of arrival can lead to a delivery.
- **Smaller pieces**: the two-task actor hand-over (`ActorTasks`), the sender log (`FrequencyBuffer`) and the
  running statistics (`IntervalStorage`). `Ordered` holds what ordered collections give their users,
  and `Wrappers` the results that may be missing.

`dafny verify dfyconfig.toml` checks everything.

## What is assumed

- The hash and its successor function are arbitrary functions. Members that ever meet have pairwise different
  ring keys (`Ring.CollisionFree`): `insert` overwrites on a collision. In the cluster actor they also have at
  least one virtual node.
- Member ids are unique, and an id drawn after a downing is fresh.
- A `Delta` or `Ack` is addressed to one incarnation of a process; a process that restarts from nothing under its
  old id is not part of the model. One process may go through several ids (`CausalNet.Roster`).
- The priority members of a dispersal preference are among the known peers whenever a preference is set, a replica
  starts or an update is handled (`CausalNet.Enabled`); `CausalNet.RemovalPanics` shows that this is needed.
- A serialised value is an arbitrary sequence of bytes. A parcel fits its header (`UdpSerial.Fits`): the casts of
  the sizes in `UdpSerial::new` lose nothing.
- Every datagram is one that was sent, or does not parse.
- Sends are added to a set, timers fire at any moment, and random choices are arguments.

## Where the code differs from its description, or from what one might expect

- A group does not always settle. Under the default preference (`OutOfDate`, amount 1) a peer that never answers and has
  the lowest (count, id) entry takes the one place in every dispersal, and the others hear nothing more
  (`CausalExamples.DefaultPreferenceCanStarve`). `CausalStarving.SettlesIffServed` says exactly when that happens.
- An operation queued before the first cluster update is not dispersed when it becomes the initial delta, and no timer
  starts, so it may stay where it is until something else happens (`CausalExamples.QueuedOperationCanBeStuck`).
  `CausalTimers.TimersKeepRunning` says that this is the only way to be left without a timer, and
  `CausalTimers.SettlesIffTaught` what it costs.
- A priority member that is removed from the cluster makes the dispersal in the same handler panic
  (`CausalNet.RemovalPanics`).
- The module documentation calls `charges` the inverse of the ring (aurum_actors/src/cluster/mod.rs:26-30).
  A member with `vnodes == 0` occupies one slot and so can manage others, but its charges are always empty
  (`Monitoring.ManagesWithoutCharging`), and `remove` reports `Err(1)` for it (`NodeRing.NodeRing.Remove`). The inverse
  holds exactly for members that have virtual nodes or manage nobody (`Monitoring.InverseExactly`).
- A packet that its reassembly has already is not read off the socket. It is peeked again and again, and blocks all that
  is behind it until the reassembly times out (`SocketLoop.BlockedReadsNothing`). So a message can be delivered if and
  only if somewhere in the order of arrival all its packets come with no repeat of one of them
  (`SocketDelivery.DeliverableIffStretch`). Packets that come as 0, 1, 1, 2 or as 0, 1, 1, 2, 2, 0, 0, 1 never make a
  message of three (`SocketDelivery.LostToRepeats`); 0, 1, 1, 2, 0 may (`SocketDelivery.SavedByRepeat`).
- `update` files an added peer at count 0 without looking whether it is known. For a known peer with a positive
  count this leaves a stale index entry (`CausalActor.AddingKeepsIndex` says exactly when it does not); the
  cluster actor never reports such an addition (`ClusterFeed.RunFeeds`).
- `try_from` and `put` are inverse only on headers with a destination and a sequence number within the maximum
  (`Packets.PutThenParse`).
- `is_manager` counts slots where `node_managers` counts members, so it accepts only some managers and may accept the
  target itself (`IsManager.IsManagerBySlots`, `IsManager.OverlooksManager`, `IsManager.CountsItself`). The two agree
  about a target exactly when the next `rep_factor` slots are none of its own and belong to as many members as it has
  managers (`IsManager.AgreesExactly`). Nothing calls it.
- The loop of `FrequencyBuffer::push` comes to an end exactly when the capacity is not 0 (`FrequencyBuffer.PushEnds`),
  and `IntervalStorage::push_instant` panics exactly when it is (`IntervalStorage.IntervalStorage.PushInstant`).

## Model

| member | source | states |
|---|---|---|
| Lattices.Lattice.JoinAllIsUpper | aurum_actors/src/cluster/crdt/mod.rs:5-15 | every delta of a queue is below the fold of the queue |
| Lattices.Lattice.JoinAllIsLeast | aurum_actors/src/cluster/crdt/mod.rs:5-15 | the fold of a queue is below everything that is above each delta |
| Lattices.Lattice.JoinAllIgnoresOrder | aurum_actors/src/cluster/crdt/mod.rs:5-15 | a fold of joins depends only on which values occur, not on order, grouping or repetition |
| Causal.FirstCount | aurum_actors/src/cluster/crdt/causal.rs:148 | the first entry of the ordered index is a lower bound of all counts and is attained; 0 when the index is empty |
| Causal.LowestAck | aurum_actors/src/cluster/crdt/causal.rs:202-219 | the first entry of `ord_acks` is the lowest of the peers' acknowledgements |
| Causal.AckedAlive | aurum_actors/src/cluster/crdt/causal.rs:135-153 | an acknowledgement of something produced never pops an empty delta queue, and keeps the queue length equal to `clock - min_delta` and every ack at most `clock` |
| Causal.AckShrinksLag | aurum_actors/src/cluster/crdt/causal.rs:135-153 | an accepted newer acknowledgement lowers the sum of `clock - ack` over any listing of peers by exactly the difference |
| Causal.DispersalReachesLowest | aurum_actors/src/cluster/crdt/causal.rs:96-127 | whenever some peer is behind, a dispersal sends to a peer with the lowest ack, under either selector and any priority set, if `amount` is at least 1 |
| Causal.WithoutPriorityOrder | aurum_actors/src/cluster/crdt/causal.rs:98-103 | filtering the index keeps exactly the peers outside the priority set, least acknowledged first |
| Causal.RankIsPosition | aurum_actors/src/cluster/crdt/causal.rs:98-103 | the k-th filtered peer is the one with exactly k filtered peers ahead of it in (count, id) order, so that `take(amount)` is the selection by rank |
| Causal.SendsAll | aurum_actors/src/cluster/crdt/causal.rs:109-127 | walking the chosen peers sends one datagram for each of them that is behind and nothing else |
| Causal.FurtherBehindFirst | aurum_actors/src/cluster/crdt/causal.rs:96-113 | priority members and, under `All`, everyone are chosen; otherwise a peer is not passed over for one with a higher count, or with the same count and a higher id |
| Causal.PlacesAreFilled | aurum_actors/src/cluster/crdt/causal.rs:100-103 | under `OutOfDate` exactly `amount` peers without priority are chosen, or all of them if there are fewer |
| Causal.QueueIsMutations | aurum_actors/src/cluster/crdt/causal.rs:250-254 | starting with queued operations leaves the data that starting without and then mutating one after another leaves, each operation joined to what the ones before it made |
| Causal.ChangesMean | aurum_actors/src/cluster/crdt/causal.rs:208-234 | a batch leads to a dispersal if and only if some event in it adds a peer or removes one other than whom the node is at that point |
| CausalActor.OrdAfterAck | aurum_actors/src/cluster/crdt/causal.rs:145-147 | removing the old entry and inserting the new one leaves the index of the updated acknowledgements |
| CausalActor.OrdAfterRemove | aurum_actors/src/cluster/crdt/causal.rs:215-216 | removing a peer and its entry leaves the index of the remaining peers |
| CausalActor.AddingKeepsIndex | aurum_actors/src/cluster/crdt/causal.rs:221-226 | adding a peer with count 0 keeps the index in step if and only if the peer was unknown or had acknowledged nothing |
| CausalActor.InCluster.constructor | aurum_actors/src/cluster/crdt/causal.rs:246-272 | `to_ic`: the queued operations' data is the one delta and the clock is 1, unless there is nothing; each peer starts at 0 under its own id; index and minimum agree with the acknowledgements |
| CausalActor.InCluster.SelectionIsChosen | aurum_actors/src/cluster/crdt/causal.rs:98-105 | the list taken from the ordered index is the declarative selection of receivers |
| CausalActor.InCluster.Disperse | aurum_actors/src/cluster/crdt/causal.rs:96-127 | what is sent is exactly one datagram to each chosen peer that is behind, with its own id and clock: the data if the peer is below `min_delta`, otherwise the join of the whole retained queue |
| CausalActor.InCluster.Ack | aurum_actors/src/cluster/crdt/causal.rs:135-153 | a panic exactly when more deltas would be popped than there are; otherwise the fields stand for the collected replica, with index and minimum in step, and queue length and counts stay consistent whenever the clock acknowledged was produced |
| CausalActor.InCluster.Op | aurum_actors/src/cluster/crdt/causal.rs:155-169 | an operation with an empty delta changes and sends nothing; any other is joined, queued, counted and dispersed |
| CausalActor.InCluster.Delta | aurum_actors/src/cluster/crdt/causal.rs:171-200 | a delta of an unknown sender changes and sends nothing; of a known one it is answered always, and joined, queued, counted and dispersed exactly when it changes the data |
| CausalActor.InCluster.UpdateOne | aurum_actors/src/cluster/crdt/causal.rs:210-228 | each membership event leaves index and minimum consistent, also when the minimum falls to 0 or jumps |
| CausalActor.InCluster.Update | aurum_actors/src/cluster/crdt/causal.rs:202-235 | a batch of events is applied in order and followed by a dispersal exactly when a peer came or went along the way |
| CausalActor.InCluster.DisperseTimeout | aurum_actors/src/cluster/crdt/causal.rs:386-391 | the timeout sends something exactly when some peer is behind |
| CausalNet.QueueLeadsToData | aurum_actors/src/cluster/crdt/causal.rs:106 | the data held at `min_delta` joined with a prefix of the queue is the data held that many clock values later; the whole queue leads to the current data |
| CausalNet.OutdatedSuffices | aurum_actors/src/cluster/crdt/causal.rs:116-124 | whichever of the two messages a peer is sent, joining it brings a peer that holds what it acknowledged up to the sender's data, and the message invents nothing |
| CausalNet.StepKeepsInv | aurum_actors/src/cluster/crdt/causal.rs:342-394 | every step of every process, over a network that loses, repeats, delays and reorders, keeps the whole invariant |
| CausalNet.MutateKeepsInv | aurum_actors/src/cluster/crdt/causal.rs:155-169 | local operations, with the dispersal in the same handler, keep the invariant |
| CausalNet.DeltaKeepsInv | aurum_actors/src/cluster/crdt/causal.rs:171-200 | receiving any delta ever sent, at any time, with the answer and the dispersal that follow, keeps the invariant: the answer is a sound acknowledgement |
| CausalNet.AckKeepsInv | aurum_actors/src/cluster/crdt/causal.rs:135-153 | receiving any acknowledgement ever sent keeps the invariant and never panics |
| CausalNet.UpdateKeepsInv | aurum_actors/src/cluster/crdt/causal.rs:202-235 | a batch of membership events, with the dispersal when a peer came or went, keeps the invariant |
| CausalNet.TimeoutKeepsInv | aurum_actors/src/cluster/crdt/causal.rs:386-391 | a timeout, which disperses under its guard, keeps the invariant |
| CausalNet.StrangersAreIgnored | aurum_actors/src/cluster/crdt/causal.rs:179 | delivering a delta from an id that the receiver does not know changes nothing at all |
| CausalNet.StartTakes | aurum_actors/src/cluster/crdt/causal.rs:246-272 | starting makes the replica of the queued operations, and sends and schedules nothing |
| CausalNet.MutateTakes | aurum_actors/src/cluster/crdt/causal.rs:155-169 | a mutation with an empty delta changes nothing; any other joins, queues and counts its delta, sends what the preference selects and starts a timer |
| CausalNet.DeltaTakes | aurum_actors/src/cluster/crdt/causal.rs:171-200 | a delta of a known peer is answered with its own clock; what it brings is joined, queued, counted and dispersed |
| CausalNet.AckTakes | aurum_actors/src/cluster/crdt/causal.rs:135-153 | an acknowledgement is filed when it is newer than the last, and nothing is sent |
| CausalNet.QueueThenStart | aurum_actors/src/cluster/crdt/causal.rs:250-254 | queueing an operation before the start comes to the same data as mutating after it, in every reachable state |
| CausalNet.TimeoutWhileBehind | aurum_actors/src/cluster/crdt/causal.rs:386-391 | a timer that fires while some peer is behind leads to a dispersal and another timer, and otherwise is just gone |
| CausalNet.NewPreferenceIsUsed | aurum_actors/src/cluster/crdt/causal.rs:355-357 | after a new preference is set the next dispersal goes by it |
| CausalNet.UpdateTakes | aurum_actors/src/cluster/crdt/causal.rs:202-235 | an update changes only that replica, by its events in order, and sends something only if a peer came or went |
| CausalNet.ReachableInv | aurum_actors/src/cluster/crdt/causal.rs:96-240 | the invariant holds in every reachable state of any number of replicas |
| CausalNet.AcknowledgementsAreSound | aurum_actors/src/cluster/crdt/causal.rs:109-200 | in every reachable state, if p has recorded or is about to receive that q acknowledged clock c, then q holds everything p held at clock c; and no process has panicked on its delta queue, nor on a priority member as long as those are known peers |
| CausalNet.RemovalPanics | aurum_actors/src/cluster/crdt/causal.rs:109-113 | the removal of a peer makes the dispersal that follows panic if and only if that peer is in the priority set |
| CausalNet.SettledAgree | aurum_actors/src/cluster/crdt/causal.rs:135-200 | processes that have all acknowledged each other's clock hold the same data |
| CausalNet.SettledIsTotal | aurum_actors/src/cluster/crdt/causal.rs:155-200 | and that data is exactly the join of all deltas ever produced locally: nothing lost, nothing invented |
| CausalProgress.Round | aurum_actors/src/cluster/crdt/causal.rs:96-153 | a timeout of a process, under its own preference, and the delivery of what it sends and of the answer bring a chosen peer up to date, whatever the state of either |
| CausalProgress.CatchUp | aurum_actors/src/cluster/crdt/causal.rs:96-153 | a process with a timer can bring its whole group up to date by rounds, if its preference cannot pass the group over: it selects all, or more than there are outsiders, or gives the group priority |
| CausalProgress.PromptAll | aurum_actors/src/cluster/crdt/causal.rs:129-200 | if those with a timer have something to teach those without, all get to have one |
| CausalProgress.GroupCanSettle | aurum_actors/src/cluster/crdt/causal.rs:96-200 | from every reachable state, a group whose members know each other, whose preferences serve it, and whose members with a timer teach those without, can settle and agree by timeouts and deliveries alone |
| CausalOnward.StepIsOnward | aurum_actors/src/cluster/crdt/causal.rs:96-240 | a step other than a membership update or a new preference in the group leaves each member who it was, with the peers it had and no less data; it keeps its timer, and has one if it learnt something |
| CausalOnward.GroupCanAlwaysSettle | aurum_actors/src/cluster/crdt/causal.rs:96-240 | from such a state, after any run without a membership update or a new preference in the group, whatever is mutated, delivered, lost or timed out and whatever others do, the group can still settle and agree by timeouts and deliveries alone |
| CausalStarving.StarvedNeverSettles | aurum_actors/src/cluster/crdt/causal.rs:96-105 | a member that its sender passes over for silent peers with lower entries never settles, in any run of timeouts and deliveries |
| CausalStarving.SettlesIffServed | aurum_actors/src/cluster/crdt/causal.rs:96-105 | where whoever is passed over has only silent peers ahead, the group can settle if and only if the preference of each member serves it |
| CausalTimers.TimersKeepRunning | aurum_actors/src/cluster/crdt/causal.rs:129-133 | in every reachable state a process with a peer behind has a timer pending, unless it has just started with queued operations and nobody has heard of it |
| CausalTimers.UntaughtNeverSettles | aurum_actors/src/cluster/crdt/causal.rs:376-391 | members that just started without a timer, and have nothing to learn, never settle in any run of timeouts and deliveries |
| CausalTimers.SettlesIffTaught | aurum_actors/src/cluster/crdt/causal.rs:246-272 | where preferences serve the group and nothing outside is news to it, it can settle if and only if the members with a timer teach those without |
| CausalExamples.DefaultPreferenceCanStarve | aurum_actors/src/cluster/crdt/causal.rs:58-66 | a run under the default preference after which two processes that know each other never settle, because a third one is silent |
| CausalExamples.QueuedOperationCanBeStuck | aurum_actors/src/cluster/crdt/causal.rs:246-272 | a run after which an operation queued before the start never reaches the other process, although each selects everyone |
| Devices.DevicesAreALattice | aurum_actors/src/cluster/devices/devices_state.rs:75-118 | the device table under removals, then clock, then shorter interval is a join semilattice with the empty table as minimum |
| Devices.DeltaIsMutation | aurum_actors/src/cluster/devices/devices_state.rs:24-68 | joining the delta of a mutator performs exactly the mutation, and the delta is empty if and only if the mutation changes nothing |
| Devices.JoinKeepsLatest | aurum_actors/src/cluster/devices/devices_state.rs:75-118 | of a device in both tables more removals win, then an interval over none, then the later clock, then the shorter interval |
| Devices.JoinKeepsOthers | aurum_actors/src/cluster/devices/devices_state.rs:96-118 | a device in one of the tables is kept as it is |
| Devices.PutStores | aurum_actors/src/cluster/devices/devices_state.rs:29-48 | after a `Put` the entry has the later clock, at equal clocks the shorter interval, the same removals, and no other device has changed |
| Devices.RemoveCounts | aurum_actors/src/cluster/devices/devices_state.rs:49-66 | a `Remove` takes an interval away and adds one to the removals; without an interval it does nothing |
| Devices.RemovalStands | aurum_actors/src/cluster/devices/devices_state.rs:49-66 | no number of tables with fewer removals of a device can undo a removal when joined |
| Devices.DevicesConverge | aurum_actors/src/cluster/devices/devices_state.rs:96-118 | settled processes hold the same device table |
| Ring.RepresentsOne | aurum_actors/src/cluster/node_ring.rs:119-126 | a ring is determined by its members |
| Ring.KeysAreDrawn | aurum_actors/src/cluster/node_ring.rs:119-126 | a member has as many keys as virtual nodes, at least one: its hash, and each further one drawn from the one before |
| Ring.InsertRepresents | aurum_actors/src/cluster/node_ring.rs:119-126 | inserting a member yields the ring of the members with it |
| Ring.RemoveRepresents | aurum_actors/src/cluster/node_ring.rs:128-141 | removing a member yields the ring of the members without it, and counts all of its slots if it was there and none if not |
| Ring.RemoveUndoesInsert | aurum_actors/src/cluster/node_ring.rs:115-141 | `remove` right after `insert` takes out as many slots as went in and restores the map |
| Ring.SameSurvivorsSameRing | aurum_actors/src/cluster/node_ring.rs:115-141 | any two histories of insertions and removals with the same survivors leave the same ring map |
| Ring.ForwardOrder | aurum_actors/src/cluster/node_ring.rs:44-47 | `range(key..).chain(range(..key))` visits every key once, in order of clockwise distance |
| Ring.ForwardWraps | aurum_actors/src/cluster/node_ring.rs:44-47 | the walk goes upwards from the key, and then upwards from the start to the key |
| Ring.BackwardIsReverse | aurum_actors/src/cluster/node_ring.rs:89-93 | the backward walk of `charges` is the forward walk of `managers` reversed |
| Ring.UniqueTake | aurum_actors/src/cluster/node_ring.rs:48-51 | an element is among the first n distinct ones if and only if fewer than n distinct ones precede some occurrence of it |
| Ring.ManagersByDistance | aurum_actors/src/cluster/node_ring.rs:42-52 | a member manages a key if and only if one of its slots has fewer than `num` distinct members before it on the way up |
| Ring.ManagersInOrder | aurum_actors/src/cluster/node_ring.rs:42-52 | the managers are listed by distance: each has a slot that comes before all slots of those behind it |
| Monitoring.NodeManagersByDistance | aurum_actors/src/cluster/node_ring.rs:65-71 | the managers of a member are the other members with a slot at most `rep_factor` distinct members away |
| Monitoring.NodeManagersInOrder | aurum_actors/src/cluster/node_ring.rs:65-71 | the managers of a member are listed by their distance from it |
| Monitoring.SpanByDistance | aurum_actors/src/cluster/node_ring.rs:88-110 | the cut and flagged backward walk from one key finds a member exactly when that key is the first of its owner on the member's way up and near enough |
| Monitoring.ChargesInvertManagers | aurum_actors/src/cluster/node_ring.rs:65-113 | `charges` is the inverse of `node_managers` on every collision-free ring when the owner has virtual nodes; with none it is always empty |
| Monitoring.InverseExactly | aurum_actors/src/cluster/node_ring.rs:65-113 | for a member of the ring the two are inverse if and only if it has virtual nodes or manages nobody |
| Monitoring.ManagesWithoutCharging | aurum_actors/src/cluster/node_ring.rs:65-84 | where they are not: of two members the one without virtual nodes manages the other and has no charges |
| Monitoring.ChargedOnce | aurum_actors/src/cluster/node_ring.rs:86-112 | no member is charged through two virtual nodes of the same owner |
| Monitoring.ChargedBeforeCut | aurum_actors/src/cluster/node_ring.rs:95-109 | stopping at the first member too many loses no charge and adds none |
| NodeRing.Collect | aurum_actors/src/cluster/node_ring.rs:95-109 | the loop over a span computes the charged members of that span |
| NodeRing.NodeRing.Contains | aurum_actors/src/cluster/node_ring.rs:115-117 | a member is found exactly when it is in the ring |
| NodeRing.NodeRing.NodeManagers | aurum_actors/src/cluster/node_ring.rs:65-71 | `None` exactly for a stranger; otherwise at most `rep_factor` members, never the member itself |
| NodeRing.NodeRing.ManagersAreMembers | aurum_actors/src/cluster/node_ring.rs:65-71 | managers are distinct members of the ring other than the member itself |
| NodeRing.NodeRing.Insert | aurum_actors/src/cluster/node_ring.rs:119-126 | the loop over the keys makes the ring of the members with the new one |
| NodeRing.NodeRing.Remove | aurum_actors/src/cluster/node_ring.rs:128-141 | the loop over the keys makes the ring of the members without it; it succeeds exactly when presence agrees with having virtual nodes, and otherwise reports 1 for a member and 0 for a stranger |
| NodeRing.NodeRing.Charges | aurum_actors/src/cluster/node_ring.rs:73-113 | `None` exactly for a stranger; otherwise the concatenated walks list, without repetition, exactly the members this one is a manager of |
| Disruption.RemovalDisruption | aurum_actors/src/cluster/node_ring.rs:42-52 | after removing m, `managers(item, n)` is `managers(item, n + 1)` without m, cut to n |
| Disruption.InsertionDisruption | aurum_actors/src/cluster/node_ring.rs:42-52 | after inserting m, `managers(item, n)` is as before, or m enters at one place and the last one drops out |
| IsManager.IsManagerBySlots | aurum_actors/src/cluster/node_ring.rs:54-63 | `is_manager` holds if and only if one of the manager's slots is among the `rep_factor` slots after the target's first: it counts slots, not members |
| IsManager.IsManagerIsSound | aurum_actors/src/cluster/node_ring.rs:54-71 | whoever it accepts, other than the target itself, is among the target's `node_managers` |
| IsManager.OneSlotEachAgrees | aurum_actors/src/cluster/node_ring.rs:54-71 | on a ring with one slot per member it agrees with `node_managers` |
| IsManager.ManagerCount | aurum_actors/src/cluster/node_ring.rs:65-71 | `node_managers` lists every other member as far as `rep_factor` leaves room, each once |
| IsManager.AgreesExactly | aurum_actors/src/cluster/node_ring.rs:54-71 | it agrees with `node_managers` about a target if and only if the next `rep_factor` slots are none of its own and belong to as many members as it has managers |
| IsManager.OverlooksManager | aurum_actors/src/cluster/node_ring.rs:54-71 | a manager behind two slots of the target is not accepted |
| IsManager.CountsItself | aurum_actors/src/cluster/node_ring.rs:54-71 | with two slots they differ: a member alone in the ring manages itself by one and has no manager by the other |
| Gossip.Compare | aurum_actors/src/cluster/gossip.rs:16-60 | two cursors over the sorted maps find exactly the entries that are newer, and sorted events, one per member whose presence changes |
| Gossip.Gossip.Merge | aurum_actors/src/cluster/gossip.rs:15-65 | afterwards everyone known to either side is known, and down if down on either side; an `Added` is reported exactly for who is new and up, a `Removed` exactly for who was up and is down |
| Gossip.ReportsInOrder | aurum_actors/src/cluster/gossip.rs:16-60 | events come by host (names before addresses, IPv4 before IPv6, upwards), then by UDP port, TCP port, id and virtual nodes, all upwards |
| Gossip.GossipIsALattice | aurum_actors/src/cluster/gossip.rs:68-72 | gossip maps under key-wise maximum of Up before Down form a join semilattice |
| Gossip.MergesIgnoreOrder | aurum_actors/src/cluster/gossip.rs:15-65 | the state after any merges depends only on which gossips were merged |
| Gossip.MergedFollows | aurum_actors/src/cluster/gossip.rs:68-72 | a merge forgets nobody and leaves down whoever is down |
| Members.MemberOrder | aurum_actors/src/cluster/utils.rs:154-163 | the derived order on members is a strict total order, so maps keyed by members have one iteration order |
| Members.OrderByFields | aurum_actors/src/core/remoting.rs:28-35 | the order compares host, UDP port, TCP port, id and virtual nodes in turn; names go by their first difference |
| Cluster.ReportsLead | aurum_actors/src/cluster/cluster.rs:110-129 | applied one by one, the events of a merge lead from the old member set to the new one, and each removal finds its member |
| Cluster.AfterGossipMeans | aurum_actors/src/cluster/cluster.rs:105-129 | after a gossip everyone known to either side is known, down is who is down on either side, and the node has a new id exactly when the other side has it down |
| Cluster.FeedMeans | aurum_actors/src/cluster/cluster.rs:105-135 | what is published about a gossip: who is new and up, who was up and is down, and last the new id if the node was down |
| Cluster.InCluster.Alone | aurum_actors/src/cluster/cluster.rs:61-77 | a node on its own: empty charges and managers are those of its ring |
| Cluster.InCluster.FromGossip | aurum_actors/src/cluster/cluster.rs:346-383 | joining from a gossip state: a node that is reported down comes back under the new id; all parts of the state agree |
| Cluster.InCluster.FromPing | aurum_actors/src/cluster/cluster.rs:384-416 | joining through a ping of a seed: both are up and all parts of the state agree |
| Cluster.InCluster.UpdateChargesManagers | aurum_actors/src/cluster/cluster.rs:157-207 | charges and managers become those of the ring; receivers of members that stay are kept, one is started for each new charge, and exactly the others are terminated |
| Cluster.InCluster.OnGossip | aurum_actors/src/cluster/cluster.rs:105-138 | member set, ring, charges and managers agree with the merged gossip, also across a self-downing; no `unwrap` fails; subscribers are told exactly what changed |
| Cluster.InCluster.OnPing | aurum_actors/src/cluster/cluster.rs:139-153 | an unknown pinger is added everywhere and reported; a known one changes nothing |
| Cluster.InCluster.OnDowned | aurum_actors/src/cluster/cluster.rs:274-289 | a charge that is up is taken out everywhere and reported; one that is down already changes nothing; no `unwrap` fails |
| Cluster.PingingOnPing | aurum_actors/src/cluster/cluster.rs:384-389 | a pinging node answers only its seeds |
| Cluster.RunsMoveForward | aurum_actors/src/cluster/cluster.rs:105-155 | over any run a node's gossip only moves forward, a member down at a node is never up there again, and the node itself is up under its current id |
| Cluster.HeartbeatsMatchMonitoring | aurum_actors/src/cluster/cluster.rs:567-571 | nodes with equal gossip agree: one sends heartbeats to the other if and only if the other watches it |
| ClusterFeed.MergeFeeds | aurum_actors/src/cluster/crdt/causal.rs:202-231 | what the cluster actor reports is always what the dispersing actor's `update` expects, and leaves it with exactly the other members as peers |
| ClusterFeed.EventFeeds | aurum_actors/src/cluster/cluster.rs:105-155 | whatever is published about one event can be handled, and leaves the replica with the node's identity and the other present members as peers |
| ClusterFeed.RunFeeds | aurum_actors/src/cluster/crdt/causal.rs:376-391 | over any run of the two actors of a node, with updates waiting in the mailbox and operations, deltas and acknowledgements handled in between, the dispersing actor never panics on an update, an acknowledgement or the first update, and once it has read them all it has the identity of the node and the other members that are up as peers |
| ClusterFeed.StartFeeds | aurum_actors/src/cluster/crdt/causal.rs:246-272 | the replica that `to_ic` makes has the other members as peers |
| ClusterFeed.PeersDecide | aurum_actors/src/cluster/crdt/causal.rs:202-231 | what a replica makes of membership events depends only on its identity and who its peers are |
| Packets.EncodeDecode | aurum_actors/src/core/packets.rs:167-184 | every byte string is the big-endian encoding of its value |
| Packets.Put | aurum_actors/src/core/packets.rs:128-151 | the bytes of the written buffer, each by its weight, make up the fields, 0 stands for a message and 1 for a signal |
| Packets.TryFrom | aurum_actors/src/core/packets.rs:155-190 | the fields are the big-endian values of their bytes, 0 is a message and 1 a signal; exactly a wrong length, another interpretation byte, a sequence number beyond the maximum and an empty destination are rejected |
| Packets.ParseThenPut | aurum_actors/src/core/packets.rs:126-191 | every accepted buffer is reproduced by `put` |
| Packets.PutThenParse | aurum_actors/src/core/packets.rs:126-191 | a header survives the wire if and only if its sequence number is within the maximum and it has a destination |
| UdpSerial.New | aurum_actors/src/core/udp_serial.rs:64-99 | the bytes are the datagrams, one after the other, each with the header of its sequence number |
| UdpSerial.DatagramBytes | aurum_actors/src/core/udp_serial.rs:64-99 | datagram i byte by byte: a header of 19 bytes with i, the last number and both sizes, then bytes 56 i up to 56 i + 55 of the item followed by the destination |
| UdpSerial.Slices | aurum_actors/src/core/udp_serial.rs:101-109 | datagram i is bytes 75 i up to 75 i + 74 of the serial form, and the last one is the rest |
| UdpSerial.UdpSerial.Sizes | aurum_actors/src/core/udp_serial.rs:32-44 | for every total size, `packets()` is the highest sequence number plus one and `payload_len()` is item plus destination |
| UdpSerial.UdpSerial.Send | aurum_actors/src/core/udp_serial.rs:101-109 | the bytes are cut exactly at the datagram boundaries |
| UdpSerial.ChunksCoverBody | aurum_actors/src/core/udp_serial.rs:84-95 | the payloads, each in its place, are item followed by destination |
| MessageBuilder.InsertHolds | aurum_actors/src/core/packets.rs:69-83 | placing a packet keeps every payload already placed, although its slot overlaps theirs |
| MessageBuilder.FinishedIsWhatWasSent | aurum_actors/src/core/packets.rs:85-95 | once all packets are placed, in any order, `msg()` and `dest()` are the sender's bytes |
| MessageBuilder.AllOrFewer | aurum_actors/src/core/packets.rs:85-87 | counting distinct sequence numbers up to the maximum tells that all have been seen |
| MessageBuilder.MessageBuilder.constructor | aurum_actors/src/core/packets.rs:57-67 | an empty reassembly of the announced size |
| MessageBuilder.MessageBuilder.Insert | aurum_actors/src/core/packets.rs:69-83 | a repeated packet changes nothing and is not read; any other is read, placed, and marked in the bit set |
| MessageBuilder.InsertedByByte | aurum_actors/src/core/packets.rs:69-83 | placing packet i changes exactly bytes 56 i + 19 up to 56 i + 74 of the buffer, as far as buffer and datagram go |
| MessageBuilder.MessageBuilder.Finished | aurum_actors/src/core/packets.rs:85-87 | true if and only if every sequence number has been seen |
| UdpReceiver.UdpReceiver.TakeTurn | aurum_actors/src/core/udp_receiver.rs:17-56 | one turn of the loop: the table of builders, the builder that is forwarded, and whether the peeked datagram leaves the socket; builders never share a buffer |
| UdpReceiver.ArrivedMeans | aurum_actors/src/core/udp_receiver.rs:22-55 | no header changes nothing; a message of one packet is forwarded and enters no table; a first packet makes an entry; a further one is added, and the entry is forwarded and removed exactly when every number has been seen |
| UdpReceiver.UdpReceiver.Expire | aurum_actors/src/core/udp_receiver.rs:57-61 | a timeout drops one entry and nothing else |
| Delivery.ForwardedIsWhatWasSent | aurum_actors/src/core/udp_receiver.rs:17-61 | over any run with loss, repetition, reordering, junk and timeouts, whatever is forwarded carries the item and destination of a message that was sent |
| Delivery.DeliveriesAreEarned | aurum_actors/src/core/udp_receiver.rs:29-55 | in any run a message is delivered at most as often as each of its packets is read |
| Delivery.DeliveredIffWindow | aurum_actors/src/core/udp_receiver.rs:29-61 | in any run a message is delivered if and only if at some time all its packets were read, in any order, with no timeout of it in between |
| Delivery.DeliveredExactlyOnce | aurum_actors/src/core/udp_receiver.rs:29-61 | if each packet is read exactly once and none is late, the message is delivered exactly once |
| SocketLoop.TurnIsTheReceivers | aurum_actors/src/core/udp_receiver.rs:17-56 | a turn of the loop in the model is what the receiver does with the front datagram: the table, what is forwarded, and whether it is taken off the socket, which is unless it is a repeat |
| SocketLoop.RunKeepsOk | aurum_actors/src/core/udp_receiver.rs:15-63 | whatever arrives and whichever timers fire, the datagrams are read in order of arrival, and what has been read is a run of the receiver in which no repeat of an unfinished message is read |
| SocketLoop.StartRuns | aurum_actors/src/core/udp_receiver.rs:11-15 | so it is from the start, with nothing waiting and nothing read |
| SocketLoop.BlockedReadsNothing | aurum_actors/src/core/packets.rs:69-73 | while a repeat of an unfinished message is at the front and that message has not timed out, nothing is read and nothing is delivered, whatever arrives and whichever other timers fire |
| SocketLoop.ExpiryUnblocks | aurum_actors/src/core/udp_receiver.rs:57-61 | the timeout of that message ends the blockade and the repeat is read |
| SocketLoop.NoRepeatNoBlockade | aurum_actors/src/core/packets.rs:69-73 | the loop is blocked only by a packet that has arrived at least twice |
| SocketLoop.DrainedDelivers | aurum_actors/src/core/udp_receiver.rs:17-61 | once everything has been read, a message that did not time out has been delivered if and only if each of its packets came |
| SocketLoop.DrainedExactlyOnce | aurum_actors/src/core/udp_receiver.rs:17-61 | and exactly once if each came once |
| SocketDelivery.DeliveryNeedsStretch | aurum_actors/src/core/packets.rs:69-73 | in any run that delivers a message, all its packets arrived within some stretch in which none of them came twice |
| SocketDelivery.DeliverableIffStretch | aurum_actors/src/core/udp_receiver.rs:15-63 | after given arrivals some timing of turns and timeouts delivers the message if and only if there is such a stretch among them, whatever else arrives |
| SocketDelivery.LostToRepeats | aurum_actors/src/core/packets.rs:69-73 | two orders of arrival of three packets, each packet among them, after which the message is never delivered |
| SocketDelivery.SavedByRepeat | aurum_actors/src/core/packets.rs:69-73 | an order of arrival with a repeat that a later copy makes good |
| ActorTasks.UnitSingle | aurum_actors/src/core/actor_tasks_unit.rs:25-40 | the one-task loop gives the actor exactly the messages before the first Term and stops exactly at a Term |
| ActorTasks.UnitSecondary.Recv | aurum_actors/src/core/actor_tasks_unit.rs:78-107 | nothing queued or posted is lost, doubled or reordered, a request is held or answered once with one message, nobody waits while something is queued; it ends exactly on `Die` and panics exactly on a second request |
| ActorTasks.LawsDetermineHandling | aurum_actors/src/core/actor_tasks_unit.rs:78-107 | these laws hold of one way to handle a message and of no other: the one that the executions run on |
| ActorTasks.SecondaryKeepsInv | aurum_actors/src/core/actor_tasks_unit.rs:78-107 | a turn of the secondary keeps the single token and the order of messages |
| ActorTasks.PrimaryKeepsInv | aurum_actors/src/core/actor_tasks_unit.rs:128-140 | a step of the primary keeps the single token and the order of messages |
| ActorTasks.ExecutionKeepsInv | aurum_actors/src/core/actor_tasks_unit.rs:67-141 | the token invariant holds in every state of every interleaving |
| ActorTasks.RefinesSingle | aurum_actors/src/core/actor_tasks_unit.rs:25-40 | every step of the two tasks is a step of the one-task loop on the same mailbox, or invisible |
| ActorTasks.EveryExecutionDelivers | aurum_actors/src/core/actor_tasks_unit.rs:67-141 | in every interleaving none of the panics is reached, the actor is given a prefix of the messages before the first Term, and all of them once Die reaches the secondary |
| ActorTasks.NeverStuck | aurum_actors/src/core/actor_tasks_unit.rs:67-141 | when neither task can move, everything before the first Term has been received, and after a Term both tasks have ended |
| ActorTasks.TasksComeToRest | aurum_actors/src/core/actor_tasks_unit.rs:67-141 | each step of a task lowers a measure, so without further posts the tasks come to rest |
| FrequencyBuffer.RunsAgainstSenders | aurum_actors/src/cluster/devices/client.rs:192-193 | there are at least as many runs as senders, and equally many if and only if every sender's entries are contiguous |
| FrequencyBuffer.ChangesAtTheBack | aurum_actors/src/cluster/devices/client.rs:250-256 | dropping the oldest entry lowers the number of changes exactly when it differs from its neighbour |
| FrequencyBuffer.FrequencyBuffer.Pop | aurum_actors/src/cluster/devices/client.rs:250-264 | the oldest entry goes; counts and changes stay those of the buffer |
| FrequencyBuffer.FrequencyBuffer.Push | aurum_actors/src/cluster/devices/client.rs:266-276 | the buffer is the newest entries up to the capacity; counts are its multiset and changes its adjacent differences |
| FrequencyBuffer.PushEnds | aurum_actors/src/cluster/devices/client.rs:266-268 | popping makes room after finitely many times if and only if the capacity is not 0 |
| FrequencyBuffer.FrequencyBuffer.MultipleSenders | aurum_actors/src/cluster/devices/client.rs:192-193 | the multiple-sender branch is taken if and only if some sender reappears after another one |
| IntervalStorage.VarianceIsMeanDeviation | aurum_actors/src/cluster/interval_storage.rs:58-61 | the value under the square root is the mean squared distance from the mean, hence never negative |
| IntervalStorage.VarianceZero | aurum_actors/src/cluster/interval_storage.rs:58-61 | it is zero if and only if all intervals are equal |
| IntervalStorage.SumsObeyCauchySchwarz | aurum_actors/src/cluster/interval_storage.rs:41-52 | the count times the sum of squares is at least the square of the sum |
| IntervalStorage.SumsFit | aurum_actors/src/cluster/interval_storage.rs:41-52 | neither running sum leaves 64 bits while capacity times the largest square does not |
| IntervalStorage.IntervalStorage.constructor | aurum_actors/src/cluster/interval_storage.rs:20-35 | the deque has the initial interval at even and 0 at odd places, twice as many as `times` or up to the capacity, and both sums are those of the deque |
| IntervalStorage.IntervalStorage.PushInstant | aurum_actors/src/cluster/interval_storage.rs:41-52 | a panic exactly without a capacity; otherwise the deque is the newest intervals up to the capacity, the newest one leads from the old instant to the new, and both sums are those of the deque |
| IntervalStorage.IntervalStorage.Spread | aurum_actors/src/cluster/interval_storage.rs:58-61 | computed from the running sums, the value under the root is the mean squared deviation of the deque |

## Left out

- Tokio tasks, sockets, name resolution, timers, logging, the failure simulation and CBOR.
- The subscribers of the CRDT and cluster actors: `publish`, `notify` and the reply to `Subscribe`, except for the
  events and the member set that a cluster update carries.
- Whom a gossip round and a gossip request are sent to: the random choice, and the neighbours that are always chosen.
- The messages `ReqGossip` and `ReqHeartbeat`, the ping counter and the transition to `Left`: they change none of the
  modelled state.
- Overflow of the 64-bit clocks and removal counts, which the model takes as unbounded.
- CausalActor.InCluster.Disperse: the datagrams form a set, so their order and a datagram repeated for a priority
  member that is also selected are not modelled; the timer it starts is in `CausalNet.Dispersed`.
- CausalNet.DeltaKeepsInv: receiving is one step, although the handler sends the acknowledgement before it joins; the
  acknowledgement cannot be acted on by this actor in between.
- CausalProgress.GroupCanSettle: shows that a settling run exists. With `CausalOnward.GroupCanAlwaysSettle` one exists
  from every state on the way, but not that every fair run settles. The length of the timeout in a preference is not
  modelled.
- CausalOnward.GroupCanAlwaysSettle: asks that no membership update and no new preference reaches the group on the way,
  since either may undo what the group needs.
- CausalStarving.SettlesIffServed: asks that whoever is passed over has only silent peers ahead. A peer that answers
  moves back in the order, and then the condition is sufficient but not necessary.
- CausalTimers.SettlesIffTaught: asks that nothing outside the group is news to it, since such news would start timers
  too.
- NodeRing.NodeRing.Charges: the order in which the walk first met the charges of one key, which the code's linked map
  keeps; its users put the result into a map.
- The order in which the priority members are visited, which is that of a hash set.
- The ring's keys for hashed values other than members, apart from an arbitrary key in `Disruption`.
- Cluster.InCluster.FromGossip: the gossip round, and the first update that a subscriber receives afterwards, which
  `ClusterFeed.Greets` describes.
- Cluster.InCluster.FromPing: the gossip round and the first update, as for `FromGossip`.
- Cluster.InCluster.OnGossip: the gossip round that follows a change.
- Cluster.InCluster.OnPing: the gossip round, which the pinger is always part of.
- Cluster.InCluster.OnDowned: the gossip round, which the downed member is always part of.
- ClusterFeed.RunFeeds: the dispersals of the dispersing actor, which `CausalNet` models, and an acknowledgement of more
  than was produced, which `CausalNet.AcknowledgementsAreSound` rules out.
- MessageBuilder.MessageBuilder.Insert: a header whose slot lies outside the buffer, where slicing panics. The packets
  of a message always have their slots (`MessageBuilder.InsertHolds`).
- UdpReceiver.UdpReceiver.TakeTurn: datagrams shorter than a header, of which `peek_from` would leave old bytes in the
  header buffer, and headers that parse but have no slot.
- SocketDelivery.DeliverableIffStretch: some timing of turns and timeouts delivers the message; how fast the loop runs
  against its timers, and whether the operating system drops datagrams, is not modelled.
- SocketLoop.DrainedExactlyOnce: that the socket is drained is a hypothesis.
- UdpSerial.New: messages of more than 65536 packets or 2^32 bytes, or with a destination of 65536 bytes or more, where
  the casts would truncate.
- ActorTasks.UnitSingle: registration, start and stop callbacks, and the panic on a message that does not deserialise.
- FrequencyBuffer.FrequencyBuffer.Push: asks for a capacity, without which it does not return. The 32-bit counters are
  unbounded here; they never exceed the capacity.
- IntervalStorage.VarianceIsMeanDeviation: mean and variance are exact real numbers; rounding to `f64` is not modelled.
- IntervalStorage.VarianceZero: exact real numbers, as above.
- IntervalStorage.IntervalStorage.Spread: exact real numbers, as above; the square root, the normal distribution, `phi`
  and `cdf` are not modelled.
- The heartbeat receivers, request senders and the device server, the registry, typed references and the macros.
