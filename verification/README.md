# A verified model of the VM control panel

The repository is a control panel for virtual machines: a backend that stores machines, addresses and sessions, a host
agent that drives libvirt, storage and the packet filter, a browser client, and a licence server. This project models
its protocol-like and state-changing parts in Dafny and proves what they keep over all inputs, runs and interleavings.
`dafny verify dfyconfig.toml` checks everything.

| file | component |
|---|---|
| `HostState.dfy`, `HostRetries.dfy`, `HostOutcomes.dfy`, `HostRequests.dfy`, `HostAgent.dfy`, `Names.dfy` | provisioning and deletion on a host, cut off and retried, and what a request gets |
| `AddressClaims.dfy`, `AddressRuns.dfy`, `MachineRows.dfy` | address claims of concurrent creations, whole runs of them, creation and card removal as rows |
| `Placement.dfy`, `Cidr.dfy` | choice of a node, expansion of an address pool |
| `WebSocket.dfy`, `EventStream.dfy` | the console's WebSocket bridge, the chat's event stream |
| `FirewallRules.dfy`, `FirewallTable.dfy`, `FirewallVerdicts.dfy` | rules compiled to chain lines, chains in the shared table, what the table decides |
| `RateLimiter.dfy`, `ConsoleTokens.dfy` | counters and tokens that expire, with background cleaners |
| `RefreshTokens.dfy`, `License.dfy`, `Tasks.dfy` | session rotation, licence degradation, task states under retry |
| `Basics.dfy` | small sequence vocabulary |

Code that changes state is a class or a loop whose contract equates the new state with a specification function; the
theorems are lemmas about those functions. Database statements, libvirt calls and packet-filter updates are atomic
effects. Random values are parameters. The clock, downloads, digests, signatures and JSON are parameters as well.

## What the proofs found

- Rate limiter: the comments promise a sliding window of ten, five and thirty requests. The code counts in fixed
  windows; up to twice the limit less one are allowed within one window's length, and this is reached
  (`RateLimiter.GrantedBound`, `RateLimiter.GrantedBoundReached`). The promise holds for a window exactly unless the
  key's bucket runs out within it with room left (`RateLimiter.LimitHoldsIff`). The comment in
  `license-server/src/handlers.ts` speaks of three activations per key and hour; nineteen pass
  (`RateLimiter.GrantedBoundReached`). A client that retries after exactly the announced time is denied again
  (`RateLimiter.RetryOnTheDot`), and later on as long as another of its keys has used up its limit
  (`RateLimiter.RetryIff`).
- Event stream and frames: the frame writer spells only the low 32 bits of a length (`WebSocket.WriterRoundTrip`). The
  reader forwards the payloads of control frames to VNC, although the comment says they are ignored
  (`WebSocket.OnlyApplicationDataReachesVnc`).
- Firewall: two cards of one machine whose MACs end in the same five characters share a chain; a card keeps its rules
  exactly while no later ones for another MAC reach its chain (`FirewallTable.ChainsCollide`,
  `FirewallVerdicts.CardDecides`, `FirewallVerdicts.ReplacementOccurs`). Between two machines of one host the card whose
  jump was added first decides, so what the sender's rules let out may bypass the receiver's drops
  (`FirewallVerdicts.BetweenCardsIff`, `FirewallVerdicts.FirstAppliedDecides`, `FirewallVerdicts.BypassOccurs`). The
  flush on deletion is meant to remove a machine's rules; it names a chain that no apply makes, and all rules stay
  (`FirewallTable.Filter.Flush`). An apply whose jump fails reports success, and its rules are not in force
  (`FirewallVerdicts.DroppedIff`).
- Addresses: two creations may come to wait for each other exactly if their requests are crossed, one asking for a pool
  before another and the other the other way round, or both twice for one (`AddressRuns.MayBlockIff`); creations that
  all ask in one order of the pools never block (`AddressRuns.AscendingNeverBlocks`).
- Names: the panel admits machine names of 63 characters, the agent refuses their disk names above 57
  (`Names.DiskNameValid`).
- Deletion of a paused machine reports success and leaves a transient domain behind; once interrupted after that, no retry
  succeeds (`HostOutcomes.DeletionOutcome`, `HostOutcomes.DeletionRetriableIff`).
- Sessions: a refresh between its two writes survives the revocation of all sessions (`RefreshTokens.RevokeAllIff`,
  `RefreshTokens.RevokeAllEscaped`).
- Tasks: a late progress report overwrites the progress of a succeeded task (`Tasks.FinalProgress`), and an exception
  while pruning old backups restarts a task that had succeeded (`Tasks.HistoryShapeIff`).

## Model

| member | source | states |
|---|---|---|
| `HostAgent.Agent.HandleCreateVm` | agent/internal/server/server.go:208-287 | the provisioning handler, cut off after any effect, ends in the host, the remaining budget and the status that running its plan of effects gives |
| `HostAgent.Agent.CreateDisks` | agent/internal/server/server.go:236-258 | the disk loop performs the disk plan in order; if it completes, there are at most eight disks with the expected paths and device names |
| `HostAgent.Agent.CollectNics` | agent/internal/server/server.go:271-281 | all cards are accepted and collected with their bridges, or the request is refused |
| `HostAgent.Agent.EnsureTemplate` | agent/internal/storage/storage.go:41-78 | a cached template is kept, a missing one is downloaded and checked, a failing one leaves no file |
| `HostAgent.Agent.CreateVolume` | agent/internal/storage/storage.go:115-135 | an existing volume is kept, a missing one is created with size and backing file |
| `HostAgent.Agent.DeleteVolume` | agent/internal/storage/storage.go:156-165 | the volume is gone and nothing else changed |
| `HostAgent.Agent.BuildSeedISO` | agent/internal/storage/storage.go:176-214 | the seed steps in order: directory, the two texts, the image of both |
| `HostAgent.Agent.DeleteSeed` | agent/internal/storage/storage.go:216-222 | the seed is gone and nothing else changed |
| `HostAgent.Agent.DefineAndStart` | agent/internal/virt/manager.go:152-168 | an existing domain is kept and started, a missing one defined and started |
| `HostAgent.Agent.Undefine` | agent/internal/virt/manager.go:212-223 | a running domain is stopped and then undefined; a missing one is no error; a paused one stays behind transient, and a transient one is an error |
| `HostAgent.Agent.HandleDeleteVm` | agent/internal/server/server.go:290-307 | the deletion handler, cut off after any effect, ends where running its plan of effects ends; the flush at its end leaves the whole firewall table as it was |
| `HostRetries.StepSettles` | agent/internal/virt/manager.go:278-284 | every effect that succeeded may be repeated without any change, except undefining a paused domain |
| `HostRetries.LaterKeeps` | agent/internal/storage/storage.go:41-78 | no later effect of a plan undoes that an earlier one may be repeated |
| `HostRetries.CutThenComplete` | agent/internal/server/server.go:236-287 | an attempt cut off anywhere does not change what a complete attempt leads to |
| `HostRetries.AttemptsConverge` | backend/src/tasks/tasks.service.ts:86-97 | nor does any series of such attempts |
| `HostRetries.ProvisionConverges` | agent/internal/server/server.go:236-287 | from any host state and after any series of cut-off attempts, a complete provisioning ends in the host and the status of one uninterrupted provisioning |
| `HostRetries.DeletionConverges` | agent/internal/server/server.go:290-307 | the same for deletion of a domain that is not paused |
| `HostOutcomes.DeletionRetriableIff` | agent/internal/server/server.go:295-299 | retrying an interrupted deletion always ends like an uninterrupted one exactly unless the domain is paused |
| `HostOutcomes.ProvisionOutcome` | agent/internal/server/server.go:208-287 | provisioning succeeds exactly when request, templates and run state permit; then the domain runs, its seed is this request's, each volume exists, new ones with the size and the template asked for, and those there before are unchanged |
| `HostRequests.ProvisionStatus` | agent/internal/server/server.go:214-287 | which answer an uninterrupted provisioning ends with, from the numbers and texts of the request: refused for its head, else decided by the first disk at fault, else refused for a card, else failing for a domain that cannot be started, else created |
| `HostRequests.Provisioned` | agent/internal/server/server.go:222-287 | a successful provisioning field by field: the definition of the machine, disk by disk and card by card; both seed texts; each new volume with the size and the cached template of the first disk that asks for it; new cache entries only as downloaded for a disk, with the digest asked for |
| `HostOutcomes.DeletionOutcome` | agent/internal/server/server.go:290-307 | a complete deletion succeeds exactly unless the domain is transient, and then changes nothing; else volumes and seed are gone, and the domain exactly unless it was paused, which leaves it transient |
| `HostRequests.EightDisks` | agent/internal/server/server.go:300-302 | the volumes a deletion removes are those named by the machine and the numbers 0 to 7 |
| `HostOutcomes.DeletionUndoesProvisioning` | agent/internal/server/server.go:290-307 | after any history of provisionings and deletions of a machine, each cut off anywhere, one complete deletion restores domains, volumes and seeds; only the template cache has grown |
| `HostOutcomes.ProvisionFrame` | backend/src/vms/vms.service.ts:114 | provisioning one machine never touches another machine's domain, volumes or seed |
| `HostOutcomes.DeletionFrame` | agent/internal/server/server.go:300-304 | nor does deletion |
| `Names.DiskNameInjective` | backend/src/vms/vms.service.ts:114 | two disk names agree only for the same machine and the same disk |
| `Names.DiskNameValid` | agent/internal/server/server.go:238 | a disk name passes the agent's check exactly when the machine name has at most 57 characters |
| `Names.DecimalIff` | backend/src/networks/networks.controller.ts:43 | a text is what is written for a number exactly if it has no leading zero and its digits, read from the left, spell the number |
| `Names.DiskNameText` | backend/src/vms/vms.service.ts:114 | a disk name is the machine name, "-disk" and the numeral of the index |
| `Names.NamePattern` | agent/internal/virt/manager.go:22-25 | which names pass the pattern, character by character |
| `Names.MacPattern` | agent/internal/server/server.go:990-1004 | which texts pass as a MAC, position by position |
| `AddressClaims.StepKeepsInv` | backend/src/vms/vms.service.ts:88-143 | every statement of every party keeps: one address per committed card, none reserved, claims of open creations disjoint and free |
| `AddressClaims.RunKeepsInv` | backend/src/vms/vms.service.ts:88-143 | so does every interleaving |
| `AddressClaims.RunSameAddresses` | backend/prisma/schema.prisma:381-392 | no run adds, removes, moves or reserves an address: free and held ones always make up the pools |
| `AddressClaims.HeldUntilReleased` | backend/src/vms/vms.service.ts:558-559 | a step takes an address from its card exactly when it releases that card |
| `AddressClaims.RemovalOutcome` | backend/src/vms/vms.service.ts:558-559 | a release, a card removal or a machine deletion leaves no card of what was removed and frees exactly its addresses; all else stays |
| `AddressClaims.NeverReassignedWhileHeld` | backend/src/vms/vms.service.ts:129-138 | in every interleaving an address leaves its card only through a release of this card |
| `AddressClaims.CommitOutcome` | backend/src/vms/vms.service.ts:88-143 | a committed creation leaves its machine, volumes and distinct cards, and for each card that wanted one exactly one address of its pool, free until then |
| `AddressRuns.HeldIffTaken` | backend/src/vms/vms.service.ts:134-143 | in any run a row that was free is held by a card exactly if a commit in between took it for this card and the card was not released since |
| `AddressRuns.ClaimLostIff` | backend/src/vms/vms.service.ts:129-138 | a creation that found an address loses its claim exactly when, between find and claim, another creation committed this address and its card was not released again |
| `AddressRuns.UncommittedInvisible` | backend/src/vms/vms.service.ts:88-143 | a creation that never commits leaves no trace in any interleaving: without its statements the others run to the same addresses, machines and cards |
| `AddressRuns.CanStepIff` | backend/src/vms/vms.service.ts:134-137 | an open creation can go on exactly unless it waits for a row that another one has claimed |
| `AddressRuns.AscendingNeverBlocks` | backend/src/vms/vms.service.ts:123-140 | if pools can be ranked so that every open creation asks for them in strictly rising order, some open creation can always go on |
| `AddressRuns.MayBlockIff` | backend/src/vms/vms.service.ts:123-140 | from a state without open creations some run leads two creations with given requests to wait for each other exactly when one asks for a pool after another and the other for these two the other way round, be they one pool or two |
| `MachineRows.AssignsIffEnough` | backend/src/vms/vms.service.ts:123-140 | an undisturbed creation gets all addresses exactly when every pool has at least as many free ones as cards that want one |
| `MachineRows.CreationServes` | backend/src/vms/vms.service.ts:123-140 | the rows a creation leaves: each card that wants an address has exactly one of its pool, free and unreserved before, no lower free one was passed over, and no other row has changed |
| `MachineRows.Service.Create` | backend/src/vms/vms.service.ts:82-143 | name conflict, no node, missing storage pool, lack of addresses or success, in this order; on success one volume name per disk, the cards, and addresses as above, nothing otherwise |
| `MachineRows.Service.RemoveNic` | backend/src/vms/vms.service.ts:552-560 | a card is removed only from its machine, and only if the machine has another; its addresses are free afterwards, all other rows as before |
| `MachineRows.CreationIsARun` | backend/src/vms/vms.service.ts:88-143 | the undisturbed creation is one run of the interleaved machine, with the same outcome |
| `Placement.SortIsStable` | backend/src/vms/vms.service.ts:516-522 | the candidates are sorted by falling free memory, equal ones in their order |
| `Placement.PickNodeIff` | backend/src/vms/vms.service.ts:512-524 | with memory times overcommit less the machines counted as free, the node picked is the first of those with most free memory, and has room; placement fails exactly when no online node has room |
| `Placement.Cluster.Place` | backend/src/vms/vms.service.ts:512-524 | an automatic placement adds the machine to the picked node, or changes nothing |
| `Placement.RunBalances` | backend/src/vms/vms.service.ts:512-524 | over any run from any allocation, a node that received a machine is within its overcommitted capacity, and no node has more free memory than it by more than the size of the last machine placed on it |
| `Placement.RunWithinCapacity` | backend/src/vms/vms.service.ts:512-524 | after any run the machines of a node that received one sum up to at most its memory times its overcommit factor |
| `Placement.LastPlacedIsLast` | backend/src/vms/vms.service.ts:512-524 | that size is the last entry of the node's machines, and every other node is unchanged |
| `Cidr.FromOctetsValue` | backend/src/networks/networks.controller.ts:37 | shifting and or-ing four octets gives the number they spell |
| `Cidr.QuadRoundTrip` | backend/src/networks/networks.controller.ts:37-43 | splitting that word gives the octets back |
| `Cidr.QuadValue` | backend/src/networks/networks.controller.ts:37-43 | splitting any word and joining it gives the word back |
| `Cidr.DottedInjective` | backend/src/networks/networks.controller.ts:43 | different words have different dotted texts |
| `Cidr.DottedIff` | backend/src/networks/networks.controller.ts:43 | a text is the dotted text of a word exactly if its four groups are numerals below 256 that, the first one highest, make up the word |
| `Cidr.NetworkPrefix` | backend/src/networks/networks.controller.ts:38-39 | the complemented mask clears exactly the host bits, and the network's last address is still a word |
| `Cidr.HostIff` | backend/src/networks/networks.controller.ts:41-42 | the loop ranges over exactly the words with the network's prefix other than the network and the broadcast address, without wrap-around |
| `Cidr.ExpandCidr` | backend/src/networks/networks.controller.ts:30-46 | the two errors in their order, else 2^(32-prefix)-2 texts, of which entry j reads as the word of the octets rounded down to the network, plus j+1 |
| `Cidr.AddressesIff` | backend/src/networks/networks.controller.ts:30-46 | a text is among them exactly when it reads as a host of the network |
| `Cidr.AddressesDistinct` | backend/src/networks/networks.controller.ts:38-45 | there are 2^(32-prefix)-2 of them, no two equal |
| `Cidr.Pools.CreateMany` | backend/src/networks/networks.controller.ts:96-99 | addresses that some pool has keep it, the others join the new pool |
| `Cidr.Pools.CreatePool` | backend/src/networks/networks.controller.ts:87-103 | errors change nothing; else the new pool has exactly the host addresses except the gateway and those already in a pool |
| `WebSocket.BigEndianRoundTrip` | agent/internal/server/server.go:614-627 | the extended lengths read back as written |
| `WebSocket.MaskInvolutive` | agent/internal/server/server.go:639-643 | masking twice with any key gives the data back |
| `WebSocket.XorBit` | agent/internal/server/server.go:639-643 | masking turns over exactly the bits that are set in the key byte |
| `WebSocket.HighestFirst` | agent/internal/server/server.go:614-627 | in an extended length the first byte is the highest |
| `WebSocket.Reader.ReadFull` | agent/internal/server/server.go:605-645 | all bytes asked for, or an error with nothing left |
| `WebSocket.Reader.ReadHead` | agent/internal/server/server.go:605-634 | flags, length form, length and key of a frame, consumed exactly |
| `WebSocket.Reader.ReadFrame` | agent/internal/server/server.go:605-645 | the frame reader computes the parse of the unread bytes and consumes the frame |
| `WebSocket.UnmaskInPlace` | agent/internal/server/server.go:639-643 | the loop over i%4 masks the buffer in place: bit k of byte i is turned over exactly if it is set in key byte i%4 |
| `WebSocket.ReadsEveryFrame` | agent/internal/server/server.go:605-645 | every well-formed frame, masked with any key or not, in any length form that fits, reads back as its payload and leaves exactly the bytes behind it |
| `WebSocket.ReadsOnlyFrames` | agent/internal/server/server.go:605-645 | conversely, everything accepted is a well-formed frame and the rest |
| `WebSocket.PayloadBits` | agent/internal/server/server.go:605-645 | what the reader takes for the payload, from the bytes alone: where it stands, unmasked as it stands, masked with exactly the bits turned over that the key sets, and under the zero key unchanged |
| `WebSocket.WriterRoundTrip` | agent/internal/server/server.go:648-667 | a written frame reads back as its payload exactly when the payload is shorter than 2^32 bytes |
| `WebSocket.WritesBinaryFrames` | agent/internal/server/server.go:648-667 | every written frame is final, has opcode 2 and no mask |
| `WebSocket.ShortestHeader` | agent/internal/server/server.go:648-663 | no unmasked header that reads back is shorter than the writer's |
| `WebSocket.CopyToVnc` | agent/internal/server/server.go:566-578 | VNC gets the payloads until the reader fails, all of them up to the byte at which the connection breaks |
| `WebSocket.CopyToClient` | agent/internal/server/server.go:579-591 | the client gets one frame for each read, up to the byte at which the connection breaks |
| `WebSocket.FrameListRoundTrip` | agent/internal/server/server.go:605-667 | a list of written payloads, each shorter than 2^32, reads back as that list and consumes all bytes |
| `WebSocket.VncBytesReachClient` | agent/internal/server/server.go:579-591 | whatever the sizes of the VNC reads, the payloads received concatenate to the bytes read |
| `WebSocket.ClientBytesReachVnc` | agent/internal/server/server.go:566-578 | whatever the fragmentation and the keys, VNC receives the concatenated unmasked payloads |
| `WebSocket.OnlyApplicationDataReachesVnc` | agent/internal/server/server.go:605-645 | VNC receives the application data and nothing else exactly when no control frame carries a payload |
| `EventStream.SplitResumes` | frontend/src/api/client.ts:94-96 | splitting the last part again together with the next chunk gives the split of the whole text |
| `EventStream.SplitJoins` | frontend/src/api/client.ts:94-97 | the parts joined give the text back and none contains the separator |
| `EventStream.LastPartClean` | frontend/src/api/client.ts:95-96 | the carried buffer never contains a blank line |
| `EventStream.EventsResume` | frontend/src/api/client.ts:94-103 | the events of a text are those before a cut and those of the carried buffer with what follows |
| `EventStream.DeliverBlock` | frontend/src/api/client.ts:98-102 | the lines of a block deliver the events of its data lines, malformed ones skipped |
| `EventStream.BlockGives` | frontend/src/api/client.ts:97-102 | a block of any lines gives, in order, the events of those that start with "data: " and parse, and of no others |
| `EventStream.ApiStream` | frontend/src/api/client.ts:87-105 | the reader delivers the events of the concatenated chunks, however they are cut, dropping the unfinished tail |
| `EventStream.Response.ChatStream` | backend/src/ai/ai.controller.ts:67-73 | the response is the text of the events as they arrived, with the error event last if there was one |
| `EventStream.WireText` | backend/src/ai/ai.controller.ts:68 | the text is "data: ", the encoding and a blank line for each event |
| `EventStream.ReadsWhatWasWritten` | backend/src/ai/ai.controller.ts:68-69 | reading the written text gives exactly the written events, if their encoding is one line and decodes back |
| `EventStream.Exchange` | frontend/src/api/client.ts:87-105 | writer and reader together: into whatever chunks the response is cut, the browser is given the events as they arrived, and after them the failure if there was one |
| `FirewallRules.BuildRule` | agent/internal/firewall/nft.go:95-138 | the line of a rule, empty exactly for an unknown direction or action |
| `FirewallRules.Script` | agent/internal/firewall/nft.go:51-74 | the lines added to the flushed chain: the rules' in order, then one drop for each direction that any rule has |
| `FirewallRules.RuleLineMeans` | agent/internal/firewall/nft.go:95-138 | the line of a usable rule matches exactly the packets the rule applies to, with its action |
| `FirewallRules.CompilePreservesMeaning` | agent/internal/firewall/nft.go:52-75 | for every rule list and packet: the first rule that applies decides; else drop if any rule has a direction in which the packet passes the card; else nothing |
| `FirewallRules.ExplicitRuleDecides` | agent/internal/firewall/nft.go:52-75 | an accepting or dropping rule for in or out decides what it matches, as it says, unless an earlier such rule does |
| `FirewallRules.AcceptedByRule` | agent/internal/firewall/nft.go:52-75 | a packet is accepted only by an accepting rule that matches it |
| `FirewallRules.OthersAddNoLine` | agent/internal/firewall/nft.go:95-102 | a rule adds one line, and none exactly if its direction or its action is another one |
| `FirewallRules.OtherPacketsFallThrough` | agent/internal/firewall/nft.go:105-110 | a packet that does not involve the MAC is never decided |
| `FirewallRules.OneDirectionDecides` | agent/internal/firewall/nft.go:52-75 | for a packet that passes the card in one direction only, the rules of this direction alone decide: the first that applies, else drop, unless there are none |
| `FirewallRules.LowestPriorityDecides` | backend/src/vms/vms.service.ts:348-356 | the applicable rule of lowest priority decides, however rules of one priority are ordered, if those of that priority agree |
| `FirewallTable.PrefixExact` | agent/internal/server/server.go:386-387 | no chain name is a proper prefix of another |
| `FirewallTable.Contains` | agent/internal/firewall/nft.go:46 | the substring search |
| `FirewallTable.ListingShowsJumps` | agent/internal/firewall/nft.go:44-48 | the listing contains the text of a jump exactly when the shared chain has that jump |
| `FirewallTable.Filter.Apply` | agent/internal/firewall/nft.go:31-82 | one apply, whichever of its four commands fail: chain and jump added if missing, the chain's lines replaced or, when the script is refused, kept and an error returned |
| `FirewallTable.Filter.Flush` | agent/internal/firewall/nft.go:85-91 | the flush on deletion of a machine never changes the table |
| `FirewallTable.Filter.ApplyToCards` | agent/internal/server/server.go:385-390 | the same rules are applied for every card of the machine, whichever fail |
| `FirewallTable.TableAfter` | agent/internal/firewall/nft.go:44-59 | after any sequence of applies with any failures: which chains exist, to which the shared chain jumps (once, while no listing fails), and that each chain holds the rules of the last apply that reached it and nothing else |
| `FirewallVerdicts.OneCardDecides` | agent/internal/firewall/nft.go:44-75 | after any applies, a packet touching exactly one managed MAC gets the decision of the last rules that reached this card's chain if they were made for this card and the jump is there, and is accepted otherwise, in whatever order the jumps stand |
| `FirewallVerdicts.CardDecides` | agent/internal/server/server.go:386-390 | a card's rules are in force exactly when no later ones for another MAC have reached its chain and some apply has added the jump; else its packets are accepted |
| `FirewallVerdicts.DroppedIff` | agent/internal/server/server.go:386-390 | a packet that those rules drop is dropped exactly when they are in force |
| `FirewallVerdicts.UnmanagedAccepted` | agent/internal/firewall/nft.go:36 | a packet touching no managed MAC is accepted |
| `FirewallTable.ChainsCollide` | agent/internal/server/server.go:387 | two cards share a chain exactly when machine and last five characters of the MAC agree |
| `FirewallTable.ApplyAllRequests` | agent/internal/server/server.go:385-390 | applying rules to all cards of a machine is one request for each card, in order |
| `FirewallVerdicts.OrderMattersIff` | agent/internal/firewall/nft.go:44-48 | for a packet touching several managed MACs the order of the jumps matters exactly when one chain accepts it and another drops it |
| `FirewallVerdicts.BetweenCardsIff` | agent/internal/firewall/nft.go:44-75 | for a packet between two cards of one host the order matters exactly when of the sender's outbound and the receiver's inbound rules one accept and the other drop it; else it is dropped exactly if one of them drops it |
| `FirewallVerdicts.ForwardOrder` | agent/internal/firewall/nft.go:44-48 | the jumps stand in the order in which they were first added, with failing listings too |
| `FirewallVerdicts.FirstAppliedDecides` | agent/internal/firewall/nft.go:44-75 | for such a packet the rules of the card whose jump was added first decide if they decide at all, else the other card's |
| `FirewallVerdicts.ReplacementOccurs` | agent/internal/server/server.go:386-390 | for any two cards of one machine with MACs of one ending, the second card's rules let through what the first one's drop |
| `FirewallVerdicts.BypassOccurs` | agent/internal/firewall/nft.go:44-48 | for any two machines, what the sender's rules accept passes although the receiver's rules drop everything |
| `RateLimiter.Limiter.CheckRateLimit` | license-server/src/rate-limit.ts:22-42 | keys are charged in order until one exceeds the limit; later keys are not charged |
| `RateLimiter.Limiter.Cleanup` | license-server/src/rate-limit.ts:45-50 | the cleaner deletes exactly the expired buckets |
| `RateLimiter.BucketKeyInjective` | license-server/src/rate-limit.ts:30 | two endpoints never share a bucket, nor do two keys of one endpoint |
| `RateLimiter.OtherBucketsUntouched` | license-server/src/rate-limit.ts:29-36 | a request charges no bucket of another endpoint or key |
| `RateLimiter.GrantedBound` | license-server/src/rate-limit.ts:22-50 | under an ordered clock, in any run with cleanups anywhere, at most 2*max-1 requests for a key are allowed in any closed interval of one window |
| `RateLimiter.GrantedBoundReached` | license-server/src/rate-limit.ts:16-20 | at every endpoint, for requests with any distinct keys, some run reaches this bound for each of the keys |
| `RateLimiter.GrantedAtMost` | license-server/src/rate-limit.ts:16-20 | in numbers: 19 activations in an hour, 9 validations in five minutes, 59 status requests in a minute for one key |
| `RateLimiter.NumbersReached` | license-server/src/rate-limit.ts:16-20 | some runs reach these numbers |
| `RateLimiter.LimitHoldsIff` | license-server/src/rate-limit.ts:16-36 | whatever follows, at most max requests for a key are allowed in the window from a moment on exactly unless the key's bucket runs out within this window with room left |
| `RateLimiter.GrantedFrom` | license-server/src/rate-limit.ts:22-42 | the requests allowed in a window of a run are those allowed from the table that the run has led to at its start |
| `RateLimiter.DeniedIff` | license-server/src/rate-limit.ts:29-41 | a request is denied exactly when the unexpired bucket of one of its keys has used up the limit |
| `RateLimiter.DeniedStops` | license-server/src/rate-limit.ts:37-39 | a denied request ends at the first key over the limit: the keys before it passed, those after it are not charged |
| `RateLimiter.RetryOnTheDot` | license-server/src/rate-limit.ts:32-38 | a denied request repeated after exactly the announced time is denied again |
| `RateLimiter.RetryIff` | license-server/src/rate-limit.ts:32-38 | a client with any distinct keys that is left alone is denied at a later moment exactly if the announced time has not passed or another of its keys has used up its limit then |
| `RateLimiter.CleanerUnobservable` | license-server/src/rate-limit.ts:45-50 | wherever cleanups fall, all answers are those of the run without them |
| `ConsoleTokens.Console.Issue` | agent/internal/server/server.go:467-489 | a token is stored for a valid machine name, for 90 seconds |
| `ConsoleTokens.Console.Redeem` | agent/internal/server/server.go:494-513 | an unexpired token opens its machine and is deleted; anything else is refused and changes nothing |
| `ConsoleTokens.Console.Sweep` | agent/internal/server/server.go:74-86 | the sweep deletes exactly the expired tokens |
| `ConsoleTokens.RedemptionIff` | agent/internal/server/server.go:481-507 | after any history a redemption succeeds exactly when the latest mention of the token is its issue, less than 90 seconds ago |
| `ConsoleTokens.RedeemedOncePerIssue` | agent/internal/server/server.go:500-507 | between two successful redemptions of a token lies another issue |
| `ConsoleTokens.SweepUnobservable` | agent/internal/server/server.go:74-86 | wherever sweeps fall, all redemptions end as in the run without them |
| `RefreshTokens.Auth.Refresh` | backend/src/auth/auth.service.ts:178-186 | an uninterrupted refresh replaces the row, or ends the session of an inactive user, or changes nothing |
| `RefreshTokens.Auth.IssueTokens` | backend/src/auth/auth.service.ts:224-238 | a row for an active user, none for others |
| `RefreshTokens.Auth.Logout` | backend/src/auth/auth.service.ts:188-190 | exactly the row of the token is gone |
| `RefreshTokens.Auth.RevokeSession` | backend/src/auth/auth.service.ts:200-202 | exactly that row is gone, and only if it is the user's |
| `RefreshTokens.Auth.RevokeAllSessions` | backend/src/auth/auth.service.ts:204-206 | exactly the user's rows are gone |
| `RefreshTokens.RefreshIsARun` | backend/src/auth/auth.service.ts:178-186 | the uninterrupted refresh is the run of its three operations |
| `RefreshTokens.RunKeepsInv` | backend/src/auth/auth.service.ts:178-206 | every interleaving keeps: tokens are exchanged once, and no login is carried on twice |
| `RefreshTokens.RotationIsSafe` | backend/src/auth/auth.service.ts:178-186 | in every interleaving no token is exchanged twice, none is live after its exchange, and each login has at most one live token |
| `RefreshTokens.LiveTokensBounded` | backend/src/auth/auth.service.ts:178-206 | live tokens and refreshes between their two writes are never more than the logins |
| `RefreshTokens.GoneStaysGone` | backend/src/auth/auth.service.ts:180-184 | an issued token without a row never gets one again and is not exchanged any more |
| `RefreshTokens.RevokedIsNotExchanged` | backend/src/auth/auth.service.ts:188-206 | after a logout or revocation a refresh already under way with the token fails |
| `RefreshTokens.RevokeAllIff` | backend/src/auth/auth.service.ts:204-206 | revoking all sessions keeps the user out until the next login exactly when no refresh of theirs stands between its two writes |
| `RefreshTokens.RevokeAllEscaped` | backend/src/auth/auth.service.ts:178-206 | such a refresh occurs: login, find, delete, and the revocation does not keep the user out |
| `License.LicenseService.Refresh` | backend/src/license/license.service.ts:238-298 | key resolution, the unconfigured case without restrictions, and cache and state after an accepted or failing answer |
| `License.LicenseService.FromCache` | backend/src/license/license.service.ts:349-373 | the state the verified cache row gives |
| `License.AcceptedIff` | backend/src/license/license.service.ts:258-291 | an answer is gone by exactly when it came, verifies, carries the nonce sent and could be stored |
| `License.RefreshStatusIff` | backend/src/license/license.service.ts:238-298 | a configured refresh ends in force exactly for such an answer that is active; in grace exactly without such an answer while the cached one verifies, is active and its days since issue are not over; else unlicensed |
| `License.RefreshCache` | backend/src/license/license.service.ts:258-297 | an answer gone by replaces the key's cache row and no other; an attempt that misses the answer, the signature, the nonce or the storing leaves the cache, and the state is what it gives |
| `License.NoReplay` | backend/src/license/license.service.ts:258-265 | over any run of refreshes, no answer puts the licence in force for two different nonces |
| `License.CacheGives` | backend/src/license/license.service.ts:363-372 | in grace the full licence with the days left, the last one begun counted, at least one, at most the full period exactly when the answer is not from the future; else nothing |
| `License.CacheDegrades` | backend/src/license/license.service.ts:363-372 | time only takes away: grace may end, days never increase, nothing else changes |
| `License.GracefulDegradation` | backend/src/license/license.service.ts:258-297 | after an accepted answer, over any run of failing refreshes, grace exactly while the answer was active and its period lasts, then unlicensed for good |
| `License.AccessIsSigned` | backend/src/license/license.service.ts:349-373 | whatever is written into the cache between refreshes, what is granted is what some signed active answer grants |
| `Tasks.Job.Process` | backend/src/tasks/tasks.service.ts:115-144 | the awaited writes of one attempt, among them the reports that arrive then, and whether it throws |
| `Tasks.Job.Work` | backend/src/tasks/tasks.service.ts:86-97 | for every schedule of arriving reports, the row after up to three attempts is that of the job's awaited writes with these reports among and after them |
| `Tasks.ScheduleArrives` | backend/src/tasks/tasks.service.ts:125-127 | every schedule is an arrival order of the job's writes |
| `Tasks.EveryOrderScheduled` | backend/src/tasks/tasks.service.ts:125-127 | conversely every order in which no report precedes the first awaited write comes from a schedule |
| `Tasks.ReportsKeepState` | backend/src/tasks/tasks.service.ts:125-127 | progress reports never change state or error, whenever they arrive |
| `Tasks.HistoryShapeIff` | backend/src/tasks/tasks.service.ts:115-144 | for every pattern of failures and every arrival order, the history is one to three times running and one terminal state exactly when pruning throws in no attempt made |
| `Tasks.FinalState` | backend/src/tasks/tasks.service.ts:133-143 | the task ends failed exactly when the first, second and third attempt throw, else succeeded, and is marked finished |
| `Tasks.FinalError` | backend/src/tasks/tasks.service.ts:134-141 | the row names an error exactly when the task failed, and it is the third attempt's |
| `Tasks.FinalProgress` | backend/src/tasks/tasks.service.ts:125-128 | a succeeded task shows progress 100 unless a report arrived after its last awaited write, then that report's |
| `Tasks.RunningProgress` | backend/src/tasks/tasks.service.ts:122-128 | an attempt starts at progress 0 and shows the last report since |

## Left out

- Host lifecycle: two attempts on one machine at the same time, files written halfway, failures of libvirt or of the
  image tools other than those named (they count as a cut-off), and run states other than running, shut off, paused and
  transient after an undefine.
- Packet filter: its own grammar (which names and lines it accepts; a refusal is a parameter); a port range with its
  ends exchanged matches nothing; lines with a transport and no port match that transport; the listing is the lines of
  the shared chain with one line for each jump.
- Rules are taken apart into enumerations for direction, action and protocol; their texts are not parsed.
- WebSocket: declared lengths of 2^63 and more end in a panic value; a read that returns bytes together with an error,
  the handshake.
- Event stream: decoding UTF-8 across chunks, JSON itself (a parameter that may fail), an exception of the consumer.
- Addresses: `addNic`, whose update is unconditional; the order in which the database finds free rows is that of the
  list; the database's abort of creations that wait for each other is an abort at any moment.
- Placement: a node given explicitly, resize, clone and drain, which skip the capacity check; two placements at once.
- MachineRows.Service.Create: whether a node and the storage pools were found are parameters; licence and quota checks
  come before it.
- Pools: the pattern that splits the text into four numbers and a prefix; gateway and name server checks.
- Sessions: the access token, deletion of a user with all rows; random tokens are taken never to repeat.
- Licence: installation phases and the activation call around `refresh`, dates that do not parse, two refreshes at once.
- Tasks: the missing handler, the delay between attempts, which backups pruning deletes.
- Pages, prompts, mail, webhooks, metrics, roles, certificates, install scripts, quotas and alerts: input, output or
  easy by comparison.
