# Verified models of the bare-metal manager's allocation and reconciliation logic

This project models four parts of the repository in Dafny and proves what they guarantee.
`dafny verify dfyconfig.toml` checks all of it.

**IP address manager** (`rest-api/ipam`). A hierarchical allocator of prefixes, child prefixes and
addresses over a record store with optimistic locking. An address is a natural number of its family, a
prefix an address with a number of network bits. `Cidrs`, `Records` and `FreeSpace` hold the arithmetic
and the record; `Memory` the store; `Ipam` the manager as a class over the store; `Forest`, `IpamSteps` and
`IpamRuns` what every run keeps; `Stranded` which subnets no call can free again; `Interleaving` the same
updates under concurrent callers and `Leaks` what a lost release leaves behind; `Scan` the address walk; `Capacity` the usage report; `DumpLoad` the dump.

**Weave reconciler** (`crates/agent/src/astra_weave.rs`). Each tick compares the desired NIC attachments
with a remote server and either copies the server's states (fast path) or runs three phases: networks,
attachments, network pruning. `WeaveServer` is the server as its only client sees it: any call can fail,
and a failed call may still have taken effect. `WeaveNetworks`, `WeaveAttachments` and `WeavePrune` are
the phases, `WeaveSync` the matching of the fast path, `WeaveReconcile` one tick, `WeaveHistory` sequences
of ticks. Every server call is appended to a log together with the state it left, so "after every single
call" is a statement about the log.

**Telemetry stats** (`bluefield/otel/telemetrystatsprocessor`). `TelemetryKeys` prints and re-reads
counter keys, `TelemetryIdentity` says which groupings tell all data points apart, `TelemetryBatches` is a
batch with its data points by position, `TelemetryCounts` counts them, `TelemetrySelf` is the shared
self-counter with its elected reporter as a state machine, and `TelemetryHandOver` says when that role is
lost.

**Interface planner** (`crates/admin-cli/src/rpc.rs`). `Planner` is the VPC-prefix branch of
`build_instance_request` with its final count check.

## Results worth knowing

- *Keys.* A colon inside a label value can make two data points share a counter
  (`TelemetryKeys.ColonCollides`). For a grouping with plain label names, reading a key back recovers the
  data point's labels exactly when nothing printed into the key contains a colon
  (`TelemetryKeys.KeyRoundTripIff`). A grouping that prints the name, or lists some label just once, gives
  every data point its own counter, whatever texts occur, exactly when its keys hold at most one free text:
  the metric name or one label (`TelemetryIdentity.IdentifiesIff`). Listing both of two labels twice can
  make them safe (`TelemetryIdentity.ListedTwiceIdentifies`).
- *Entries are independent.* In a full reconcile one NIC never decides another. If all calls of a tick are
  answered, whatever states they report, the tick succeeds and every attached entry that can be expressed has
  its stamped network and, once that is Ready, exactly its own stamped attachment; the phase reported for it is
  theirs (`WeaveReconcile.AnsweredEntry`). An entry falls short only for a lost answer about its own network or
  NIC (`WeaveReconcile.FullReconcile`).
- *Fast path with mixed stamps.* Start from a converged server and a new revision that moves one of two
  NICs to another bridge. The reconcile stamps the network and the first attachment; if the delete of the
  second fails, nothing else touches it (`WeaveHistory.HalfDoneReached`). If the server then
  lists the stamped attachment first, the next tick takes the fast path and reports the outdated
  attachment's Ready state (`WeaveHistory.MixedStampsMislead`). With equal stamps
  the first-attachment test is sound (`WeaveReconcile.UniformStampsSound`); in general the copied states
  are those of the desired attachments exactly when no attachment with another stamp would have to be
  replaced (`WeaveReconcile.FastPathTrueIff`).
- *Fast path and networks.* A network whose delete failed is not looked at again while the revision lasts
  (`WeaveHistory.LeftoverStays`). When the fast path applies, the server is converged exactly when every
  attachment carries the revision and is Ready and every network is wanted and carries the revision
  (`WeaveReconcile.FastConvergedIff`).
- *Stranded subnets.* Deleting a child directly, instead of releasing it, leaves its entry in the parent
  reserved without a record. No sequence of calls ever frees a reserved subnet exactly when it has no record
  or some stored prefix in it has such an entry; any other subnet is freed for certain by some sequence of
  releases (`Stranded.StrandedIff`). Four calls are enough: create a prefix, acquire a subnet in it, acquire
  one in that, delete the innermost (`Stranded.StrandByDelete`).
- *Lost releases.* A release deletes the child's record before it writes the parent. If that write loses its
  swap, the subnet is left without a record, in every prefix with two separate subnets
  (`Leaks.LeakReached`). For one parent record under concurrent callers, and children that can be emptied at
  will, a reserved subnet can never become free again exactly when it has no record, no pending create, and
  no release that is about to free its entry with a current copy of the parent (`Leaks.NeverFreeIff`).
- *Releases that free nothing.* A release answered Ok returns the subnet exactly when the caller named it
  without host bits and named its real parent (`IpamRuns.ReleaseReturns`).
- *Former parents.* A prefix refuses all its addresses exactly when it had a child at some time since it was
  stored, also after all children are released (`IpamRuns.ParentsStayClosed`).
- *Capacity report.* The report equals the number of smallest prefixes that callers then acquire, except
  for a prefix that holds addresses and for an unused prefix that is itself a smallest prefix, where every
  request is refused (`Capacity.ReportIsExact`, `Capacity.ReportExactIff`). A /24 with one address taken
  reports 64 and yields none (`Capacity.OverReportsHere`).
- *Dump and load.* The copy is exact unless a record carries the legacy child length without the parent
  mark (`DumpLoad.CopyStore`), which no run of the manager produces (`DumpLoad.BackUp`).
- *Self-count.* The shared counter equals the points sent, served and still to be sent, unless the HTTP
  endpoint created it; then it is one short for good (`TelemetrySelf.SelfConservation`).
- *Reporter.* On the metric path no further report can ever come exactly when the election names a
  processor that has stopped (`TelemetryHandOver.NoReportIff`). That happens when an elected processor with
  a log exporter stops, and some run from every reachable state leads there
  (`TelemetryHandOver.OrphanedReached`).

Where code and comments differ the code is followed: the comment on `AvailableSmallestPrefixes` speaks of
2^31, the code caps at 2^31-1.

## Assumptions

- IP-set library: an address set; `RemoveFreePrefix` yields some aligned free block of the asked length if
  one exists; `Prefixes` lists the maximal aligned free blocks.
- Requested child lengths are at most the family's width; CIDR text has been parsed.
- Weave: the agent is the only writer; ids are unique and non-empty; a network's id is
  `astra-weave-vni-<vni>` with a VNI of at least 1 (phase one does without this); a desired NIC occurs once (ignoring case) and all
  entries share one revision; the server does not reuse an attachment id whose delete it never
  acknowledged. An object without metadata is an object with the empty id, and one with metadata has a real
  id; a network without a spec has VNI 0, an attachment without a spec has the empty NIC. Reason and message
  texts are dropped.
- Regular expressions and clocks are parameters.

## Model

| member | source | states |
|---|---|---|
| Cidrs.OverlapsIsSharing | rest-api/ipam/prefix.go:494-511 | the mask comparison used for overlap holds exactly when two networks share an address |
| Cidrs.CoversLinear | rest-api/ipam/prefix.go:494-511 | two networks that cover a common network are nested: CIDR blocks form a tree |
| Cidrs.MaskMask | rest-api/ipam/prefix.go:207-210 | masking to a longer prefix first does not change a shorter mask |
| Records.HasIpsExact | rest-api/ipam/prefix.go:610-622 | the entry count of hasIPs is true exactly when a non-reserved address is allocated, for every length including /31, /32 and /128 |
| Records.NewRecordOk | rest-api/ipam/prefix.go:514-545 | a new record has exactly its reserved addresses, no child, and satisfies the record invariant |
| Records.ReservedExact | rest-api/ipam/prefix.go:536-542 | the reserved addresses are the lowest of the network and, for IPv4 only, the highest |
| Records.TakeChildOk | rest-api/ipam/prefix.go:266-273 | reserving a free network in a record without addresses keeps children disjoint and inside, and the parent free of addresses |
| FreeSpace.FreeNetworkIsSubset | rest-api/ipam/prefix.go:219-235 | a network is free for acquisition exactly when all its addresses are in the set "prefix minus reserved children" |
| FreeSpace.BlockIndex | rest-api/ipam/prefix.go:237-240 | every network of one length inside a prefix is one of its equally spaced blocks |
| FreeSpace.RemoveFreePrefix | rest-api/ipam/prefix.go:238-257 | a free block of the asked length is found, and none is found only if none exists |
| Memory.Store.CreatePrefix | rest-api/ipam/memory.go:32-42 | creates exactly if the key is absent, otherwise changes nothing |
| Memory.Store.UpdatePrefix | rest-api/ipam/memory.go:96-121 | writes with version plus one exactly if the stored version is the one read; otherwise reports the lock error and changes nothing |
| Memory.Store.DeletePrefix | rest-api/ipam/memory.go:122-128 | removes exactly that key |
| Memory.Store.ReadAllPrefixes | rest-api/ipam/memory.go:73-82 | lists every record of every namespace once, in some order |
| Memory.Store.ReadAllPrefixCidrs | rest-api/ipam/memory.go:83-95 | lists exactly the networks of one namespace, each once |
| Ipam.PrefixesOverlapping | rest-api/ipam/prefix.go:494-511 | reports an error exactly when some existing prefix overlaps some new one |
| Ipam.Ipamer.NewPrefix | rest-api/ipam/prefix.go:130-151 | succeeds exactly when the masked prefix overlaps no stored one; stores a fresh root; keeps the forest |
| Ipam.Ipamer.DeletePrefix | rest-api/ipam/prefix.go:153-170 | succeeds exactly for a stored prefix without addresses and reserved children; NotFound exactly if absent; keeps the forest |
| Ipam.Ipamer.AcquireChild | rest-api/ipam/prefix.go:191-289 | succeeds exactly when the parent is stored, holds no address and has a suitable free network; reserves it in the parent and creates its record, which never collides |
| Ipam.Ipamer.ReleaseChild | rest-api/ipam/prefix.go:298-318 | for any caller-supplied child: deletes the record exactly when it and the named parent are stored and it is unused, then frees the entry in the named parent (unless that is the child itself); keeps the forest and never fails on the version when undisturbed |
| Ipam.Ipamer.AcquireIp | rest-api/ipam/prefix.go:385-441 | returns the wished address, or the least free one; says exactly which refusal happens when; other records unchanged |
| Ipam.Ipamer.ReleaseIp | rest-api/ipam/prefix.go:460-490 | frees exactly an allocated, non-reserved address; NotFound exactly if it is not allocated |
| Scan.FindFree | rest-api/ipam/prefix.go:413-440 | the loop computes the recursive walk and terminates, also at the top of the address space |
| Scan.ScanLeast | rest-api/ipam/prefix.go:413-440 | the walk from the network address finds the least free address and fails exactly when every address is taken |
| Scan.StartAtWish | rest-api/ipam/prefix.go:415-418 | starting at the wished address gives the same outcome as walking from the network address |
| Forest.AddRoot | rest-api/ipam/prefix.go:141-145 | a root that overlaps no stored prefix extends the forest |
| Forest.FreeIsUnstored | rest-api/ipam/prefix.go:279-286 | no stored prefix lies in a parent's free space, so the create after a reservation cannot collide |
| Forest.AddChild | rest-api/ipam/prefix.go:266-286 | reserving and creating a child keeps the forest |
| Forest.RemoveLeaf | rest-api/ipam/prefix.go:158-164 | deleting a prefix without reserved children keeps the forest |
| Forest.ReleaseChild | rest-api/ipam/prefix.go:308-316 | freeing the entry of an unstored child keeps the forest |
| Forest.Laminar | rest-api/ipam/prefix.go:130-318 | stored prefixes that overlap are ancestor and descendant along the parent links |
| Forest.TakenIsChild | rest-api/ipam/prefix.go:266-286 | a stored prefix that is reserved in a stored record is that record's child |
| IpamSteps.NextForest | rest-api/ipam/prefix.go:130-490 | every single call, as a step on the stored records, takes a forest to a forest |
| IpamSteps.AddressesKept | rest-api/ipam/prefix.go:385-490 | in every step an allocated address stays allocated unless it is given back or its prefix is deleted, only an acquisition of it allocates it, and giving it back frees it |
| IpamRuns.Perform | rest-api/ipam/prefix.go:130-490 | every call of the manager is such a step, and leaves other namespaces alone |
| IpamRuns.Run | rest-api/ipam/prefix.go:130-490 | every state of every sequence of calls from an empty namespace is a forest, reached by the steps of those calls |
| IpamRuns.Nesting | rest-api/ipam/prefix.go:130-318 | in every forest overlap is the same as being nested along parent links, and every stored child is reserved in its stored parent |
| IpamRuns.Siblings | rest-api/ipam/prefix.go:219-273 | reserved siblings share no address and lie inside the parent |
| IpamRuns.ExclusiveUse | rest-api/ipam/prefix.go:215-217 | reserved addresses stay stored, hasIPs is exact, a parent holds no other address |
| IpamRuns.GrantNoEnd | rest-api/ipam/prefix.go:385-441 | a granted address is never the lowest of its prefix, nor the highest of an IPv4 prefix; it is the wished one, or the least free one |
| IpamRuns.MarkIff | rest-api/ipam/prefix.go:266-273 | along every run a prefix carries the parent mark exactly if it had a reserved child at some time since it was stored |
| IpamRuns.ParentsStayClosed | rest-api/ipam/prefix.go:385-411 | after any run a stored prefix refuses an address inside it as a parent exactly if it had a child since it was stored |
| IpamRuns.ReleaseReturns | rest-api/ipam/prefix.go:298-318 | a release answered Ok takes the subnet out of its parent exactly when it was named without host bits and with its real parent |
| IpamRuns.AcquireThenRelease | rest-api/ipam/prefix.go:191-318 | releasing an acquired child undoes it: same stored prefixes, and the parent has the same free space and addresses |
| IpamRuns.AcquireThenReleaseIp | rest-api/ipam/prefix.go:385-490 | releasing an acquired address restores the record but for its version, and touches no other |
| Interleaving.SwapIsStoreUpdate | rest-api/ipam/memory.go:96-121 | the swap step is the store's update applied to this record |
| Interleaving.RunKeeps | rest-api/ipam/prefix.go:712-722 | every interleaving of reads, swaps, creates and deletes, with any number of retries, keeps the invariant |
| Interleaving.NoDoubleAllocation | rest-api/ipam/prefix.go:385-490 | in every interleaving each write replaced exactly what it was computed from, stored addresses are the reserved plus the held ones, no address is held twice, a parent has none held |
| Interleaving.SubnetsExclusive | rest-api/ipam/prefix.go:266-318 | in every interleaving a stored child is reserved, a pending create finds its key empty, and a subnet is freed only without record and pending create; releases that name this parent for a prefix of another are steps too |
| Stranded.StrandedIff | rest-api/ipam/prefix.go:153-318 | no sequence of calls frees a reserved subnet exactly when it has no record or a stored prefix in it has a reserved entry without one; otherwise some releases free it for certain |
| Stranded.NoCallFrees | rest-api/ipam/prefix.go:153-318 | whatever is called on the manager, a stranded subnet stays reserved |
| Stranded.StrandByDelete | rest-api/ipam/prefix.go:153-170 | creating a prefix, acquiring a subnet, acquiring one inside it and deleting that one strands the subnet, for all nested networks |
| Leaks.NeverFreeIff | rest-api/ipam/prefix.go:298-318 | for one parent record whose children can be emptied at will: no continuation of any interleaving frees a reserved subnet exactly when it has no record, no pending create and no current release of it |
| Leaks.LeakReached | rest-api/ipam/prefix.go:298-318 | for any two separate subnets of a prefix there is a run after which one of them is never free again |
| Capacity.AvailablePrefixes | rest-api/ipam/prefix.go:642-684 | the loop returns the capped sum of block counts without exceeding 64 bits, and the usable prefixes in listed order |
| Capacity.AcquireAll | rest-api/ipam/prefix.go:219-286 | the number of consecutive successful requests is the number of free blocks of that length, or none if the parent holds addresses or is not shorter |
| Capacity.TotalIsFreeCount | rest-api/ipam/prefix.go:665-682 | the weights of the maximal free prefixes add up to the number of free blocks |
| Capacity.ReportIsExact | rest-api/ipam/prefix.go:642-684 | the report equals the capped number of requests that then succeed, exactly for a reportable parent |
| Capacity.ReportExactIff | rest-api/ipam/prefix.go:212-217 | the report is right exactly when a larger prefix holds no address and a smallest-size prefix has a reserved child |
| Capacity.OverReports | rest-api/ipam/prefix.go:212-217 | a prefix with one address taken and no child: all its smallest prefixes are reported, none can be acquired |
| Capacity.OverReportsHere | rest-api/ipam/prefix.go:642-684 | a /24 with one address taken reports 64 and yields none |
| Capacity.OverReportsHere6 | rest-api/ipam/prefix.go:642-684 | the same for an IPv6 /120 |
| DumpLoad.TransferMigrates | rest-api/ipam/json.go:24-56 | writing and reading a record keeps every field and marks it as a parent if it was one or has a legacy child length; unchanged exactly if the mark was right |
| DumpLoad.Dump | rest-api/ipam/prefix.go:547-557 | lists every record once |
| DumpLoad.Load | rest-api/ipam/prefix.go:559-582 | succeeds exactly on an empty store with distinct keys, and then holds exactly the list, migrated; a failed load leaves a non-empty store alone, or the records before the first repeated key |
| DumpLoad.CopyStore | rest-api/ipam/prefix.go:547-582 | dump then load never fails, for every iteration order, keeps every key and every field but the parent mark, and is the identity exactly when no record awaits the legacy migration |
| DumpLoad.BackUp | rest-api/ipam/prefix.go:547-582 | after any run of calls from an empty store, dump then load gives an exact copy |
| WeaveTypes.VnetIdInjective | crates/agent/src/astra_weave.rs:44-46 | different VNIs have different network names |
| WeaveTypes.DecimalReads | crates/agent/src/astra_weave.rs:44-46 | the VNI in a network name has digits only, no leading zero, and reads back as the VNI |
| WeaveTypes.SpecSpelled | crates/agent/src/astra_weave.rs:66-135 | the installed spec field by field: network name, NIC, type, and the PF, VF or OVS field of that type; none for an unknown type or a VF without number |
| WeaveTypes.SpecIdentifies | crates/agent/src/astra_weave.rs:66-135 | entries with equal specs ask for the same network, NIC, type, VF number and OVS names |
| WeaveTypes.UpdateIffAgrees | crates/agent/src/astra_weave.rs:883-933 | an attachment on the right NIC and network is updated in place exactly when type and OVS names agree |
| WeaveTypes.InstalledAgrees | crates/agent/src/astra_weave.rs:66-135 | what the agent installs agrees with its entry and needs no replacement |
| WeaveNetworks.ProcessMatchingNetwork | crates/agent/src/astra_weave.rs:308-404 | the entry's phase, one update per VNI cached for later entries, an error for a conflicting id, and no update without metadata |
| WeaveNetworks.CreateMissing | crates/agent/src/astra_weave.rs:219-295 | a create with the entry's VNI, subnet and revision; a usable answer is remembered as seen and as written |
| WeaveNetworks.CreateUpdateNetworks | crates/agent/src/astra_weave.rs:144-298 | on any server, conflicting ids included: references and stamps stay right after every call, at most one update is sent per network, answered or not, every entry still Ready has its network under its name, stamped; and once the listing is answered every attached entry, by itself, has a lost answer about its network, or one listed without metadata, or its network stamped and its phase reported |
| WeaveNetworks.NetworkPass | crates/agent/src/astra_weave.rs:190-295 | one entry never decides another: each attached entry ends with a lost answer about its own network, an object without metadata, or its network stamped, reporting the listed phase if not Ready, an error for a foreign name, else the answered phase |
| WeaveNetworks.AnsweredNetwork | crates/agent/src/astra_weave.rs:190-404 | if all calls are answered, whatever states they report, the entry's network is there and stamped, and its phase is reported |
| WeaveNetworks.WriteOnce | crates/agent/src/astra_weave.rs:257-263 | a VNI that is not cached has not been written, so one more update or create keeps the written ids distinct |
| WeavePrune.UnwantedIsEmpty | crates/agent/src/astra_weave.rs:417-422 | a network outside the configuration has no attachment left |
| WeavePrune.DeleteStaleNetworks | crates/agent/src/astra_weave.rs:409-458 | on any server: every call removes only unwanted networks, and on success exactly the unwanted ones with an id are gone |
| WeavePrune.PrunePhase | crates/agent/src/astra_weave.rs:409-458 | after the attachment phase, on a server with the agent's names, no call removes a network under an attachment |
| WeavePrune.PruneKeepsIff | crates/agent/src/astra_weave.rs:409-458 | whatever networks are called, what a successful pass leaves keeps references intact exactly when every network with an attachment is wanted or has no id |
| WeaveAttachments.SplitSameNic | crates/agent/src/astra_weave.rs:535-563 | sorts a NIC's attachments into the one on its network and all others |
| WeaveAttachments.DeleteConflicts | crates/agent/src/astra_weave.rs:565-582 | removes only conflicting attachments; reports success only if all are gone; otherwise the answer to a delete on this NIC was lost |
| WeaveAttachments.ProcessMatchingAttachment | crates/agent/src/astra_weave.rs:634-716 | the listed state if it is not Ready, else the answered one; never Ready when the answer is lost; only the stamp and state change |
| WeaveAttachments.CreateFor | crates/agent/src/astra_weave.rs:718-788 | an answered create installs exactly the entry's spec, stamped, and its state is reported; an entry without spec or a lost answer is an error |
| WeaveAttachments.DeleteMatch | crates/agent/src/astra_weave.rs:935-997 | an acknowledged delete is recorded, and no id is deleted twice |
| WeaveAttachments.AttachOne | crates/agent/src/astra_weave.rs:513-617 | other NICs are untouched; Ready means exactly one attachment of the NIC, the desired one, stamped and Ready; in every case the entry has no spec, an answer about its NIC was lost, or it has exactly its attachment, stamped, and its phase is reported |
| WeaveAttachments.AttachPass | crates/agent/src/astra_weave.rs:513-617 | one entry never decides another: each attached entry whose network is in place cannot be expressed, or an answer about its own NIC was lost, or it has exactly one attachment, the desired one, stamped, with its phase reported |
| WeaveAttachments.AnsweredPlaces | crates/agent/src/astra_weave.rs:513-788 | if all calls are answered, whatever states they report, every such entry that can be expressed has exactly its attachment, and its phase is reported |
| WeaveAttachments.CreateUpdateAttachments | crates/agent/src/astra_weave.rs:488-629 | keeps the server invariant after every call; Ready entries are served; succeeds if all calls are answered; on success only configured attachments are left and every entry has come to its own end, as in the pass |
| WeaveAttachments.PrunePassAttachments | crates/agent/src/astra_weave.rs:790-855 | removes every unconfigured attachment and none that an entry asks for |
| WeaveSync.SyncStatus | crates/agent/src/astra_weave.rs:1323-1443 | succeeds exactly when desired and server pairs agree as bags, all states and revisions are present and VNIs fit; the match is a bijection; the leftover test never fires |
| WeaveReconcile.BuildStatus | crates/agent/src/astra_weave.rs:1174-1203 | fails exactly for a missing revision or a VNI that does not fit |
| WeaveReconcile.FastPath | crates/agent/src/astra_weave.rs:1070-1139 | writes nothing, and applies exactly when the first attachment carries the revision and the server is in sync |
| WeaveReconcile.UniformStampsSound | crates/agent/src/astra_weave.rs:1099-1115 | with equal and honest stamps the copied states belong to attachments of the desired type and OVS names |
| WeaveReconcile.FastPathTrueIff | crates/agent/src/astra_weave.rs:1099-1115 | what the fast path copies belongs to the desired attachments exactly when no attachment with another stamp would have to be replaced |
| WeaveReconcile.FastConvergedIff | crates/agent/src/astra_weave.rs:1070-1139 | when the fast path applies, the server is converged exactly when all stamps are the revision, all attachments Ready and all networks wanted |
| WeaveReconcile.FullReconcile | crates/agent/src/astra_weave.rs:1053-1068 | after every call references are intact and stamps honest; writes at most once; Ready is truthful; all Ready means converged; undisturbed means all Ready; a tick whose calls are all answered succeeds; on success every entry reports its own network or attachment, whatever happened to the others |
| WeaveReconcile.AnsweredEntry | crates/agent/src/astra_weave.rs:144-788 | if all calls of a tick are answered, whatever states they report, each attached entry that can be expressed has its network, stamped, and if that is Ready exactly one attachment on its NIC, the desired one, stamped; the phase reported is theirs |
| WeaveReconcile.Concludes | crates/agent/src/astra_weave.rs:1061-1067 | after the three phases Ready entries are truthful, detached NICs have no attachment, and all Ready means converged |
| WeaveReconcile.ConvergedIsFast | crates/agent/src/astra_weave.rs:1037-1041 | on a converged server the fast path applies, unless there is nothing to attach and the server is empty |
| WeaveReconcile.Reconcile | crates/agent/src/astra_weave.rs:1014-1068 | one tick keeps all of this, fails only for a lost answer or a malformed configuration, only lists on a converged server and wherever the fast path always applies, and a fast tick meets a converged server exactly if it is settled |
| WeaveHistory.History | crates/agent/src/astra_weave.rs:1002-1068 | over any history of ticks and failures, after every single call every attachment names an existing network and every stamp is honest |
| WeaveHistory.HistoryFromEmpty | crates/agent/src/astra_weave.rs:1002-1068 | the same for every history that starts on an empty server |
| WeaveHistory.SettleDown | crates/agent/src/astra_weave.rs:1014-1139 | one undisturbed full reconcile converges, and the next tick issues no create, update or delete; the same after a fast first tick on a settled server |
| WeaveHistory.HalfDoneReached | crates/agent/src/astra_weave.rs:583-617 | from a converged server: one network stamp and one attachment stamp give the half-done server, whose other attachment must be replaced and is left by both pruning passes |
| WeaveHistory.MixedStampsMislead | crates/agent/src/astra_weave.rs:1099-1115 | for every pair of NICs: on the half-done server, listed with the stamped attachment first, the fast path applies and the attachment to be replaced is Ready |
| WeaveHistory.LeftoverStays | crates/agent/src/astra_weave.rs:1070-1139 | an unwanted network beside the right attachment: every tick takes the fast path, and the server is not converged |
| WeaveHistory.LeftoverReached | crates/agent/src/astra_weave.rs:144-458 | the steps from a converged server that leave the unwanted network when its delete fails |
| WeaveHistory.MisnamedNetworkOrphans | crates/agent/src/astra_weave.rs:409-458 | with a network not named after its VNI, pruning would leave an attachment without a network |
| TelemetryKeys.SplitJoin | bluefield/otel/telemetrystatsprocessor/telemetrystatsprocessor.go:349 | splitting a joined key gives the parts back exactly when no part contains the separator |
| TelemetryKeys.ParseKey | bluefield/otel/telemetrystatsprocessor/telemetrystatsprocessor.go:349-365 | the loop builds the label map of a key's parts |
| TelemetryKeys.GetPrecedence | bluefield/otel/telemetrystatsprocessor/telemetrystatsprocessor.go:681-700 | an attribute is read from the most specific level that has its name: data point, then scope, then resource; only strings count |
| TelemetryKeys.KeyRoundTripIff | bluefield/otel/telemetrystatsprocessor/telemetrystatsprocessor.go:810-838 | for plain label names, reading a generated key recovers exactly grouping, name, type and present labels if and only if nothing printed into it contains a colon |
| TelemetryKeys.MeaningSays | bluefield/otel/telemetrystatsprocessor/telemetrystatsprocessor.go:349-365 | the labels a key stands for, one by one: source, grouping, name and type if asked for, each listed label that is present; nothing else |
| TelemetryKeys.KeysIdentify | bluefield/otel/telemetrystatsprocessor/telemetrystatsprocessor.go:810-838 | data points that agree on name, type and labels share a key; a data point without colons agrees with another exactly if they share the key and the other has no colon either |
| TelemetryKeys.ColonCollides | bluefield/otel/telemetrystatsprocessor/telemetrystatsprocessor.go:828-837 | a colon in a label value makes two different data points share a key |
| TelemetryIdentity.IdentifiesIff | bluefield/otel/telemetrystatsprocessor/telemetrystatsprocessor.go:810-838 | over all data points, sharing a key is the same as agreeing on name, type and labels if and only if the key holds at most one free text, repeated labels counted once |
| TelemetryIdentity.LabelsCollide | bluefield/otel/telemetrystatsprocessor/telemetrystatsprocessor.go:828-837 | two labels of which one is listed once, the other any number of times: two different data points with one key |
| TelemetryIdentity.NameCollides | bluefield/otel/telemetrystatsprocessor/telemetrystatsprocessor.go:814-837 | with name and a label, the name's text can imitate the type and every listing of the label |
| TelemetryIdentity.ListedTwiceIdentifies | bluefield/otel/telemetrystatsprocessor/telemetrystatsprocessor.go:828-837 | two labels listed twice each, one after the other, never collide |
| TelemetryIdentity.AlternatingCollides | bluefield/otel/telemetrystatsprocessor/telemetrystatsprocessor.go:828-837 | two labels listed twice in turns do collide |
| TelemetryBatches.BatchKeysCount | bluefield/otel/telemetrystatsprocessor/telemetrystatsprocessor.go:177-325 | a key occurs in a batch's key list once per position (resource, scope, metric, grouping, point) that is countable, included and has the key |
| TelemetryBatches.MatchesFilter | bluefield/otel/telemetrystatsprocessor/telemetrystatsprocessor.go:712-778 | the loops with their early returns decide the filter: the type list first, then name, pattern or any label |
| TelemetryBatches.IncludeDatapoint | bluefield/otel/telemetrystatsprocessor/telemetrystatsprocessor.go:780-791 | included exactly if the include filter, if any, matches and the exclude filter, if any, does not |
| TelemetryBatches.CountedIff | bluefield/otel/telemetrystatsprocessor/telemetrystatsprocessor.go:247-325 | a data point is counted by some key exactly if its metric is not the processor's own, has one of the four kinds and passes both filters, and then under its own key only |
| TelemetryBatches.ExcludedNever | bluefield/otel/telemetrystatsprocessor/telemetrystatsprocessor.go:780-791 | a point that matches the exclude filter is in no counter |
| TelemetryBatches.UnfilteredCounted | bluefield/otel/telemetrystatsprocessor/telemetrystatsprocessor.go:780-791 | without filters every data point of the four kinds is counted, but for the processor's own metrics |
| TelemetryBatches.TypesDecide | bluefield/otel/telemetrystatsprocessor/telemetrystatsprocessor.go:717-732 | a type list rejects every other type, a filter of types only accepts the listed ones, and an empty filter matches nothing |
| TelemetryBatches.OneSuffices | bluefield/otel/telemetrystatsprocessor/telemetrystatsprocessor.go:734-774 | within the listed types one name, the pattern, or one present label that is unrestricted, listed or matching suffices |
| TelemetryCounts.Processor.ProcessMetrics | bluefield/otel/telemetrystatsprocessor/telemetrystatsprocessor.go:177-190 | the nested loops count each included data point of a batch under its key |
| TelemetryCounts.Processor.ProcessDatapoint | bluefield/otel/telemetrystatsprocessor/telemetrystatsprocessor.go:307-325 | one more for the key of an included point, the start time kept; nothing for others |
| TelemetryCounts.Processor.ScrapeMetricStats | bluefield/otel/telemetrystatsprocessor/telemetrystatsprocessor.go:343-381 | exactly one point per counter, in some order: the counter's value as value, its start as start, and its key read back as labels |
| TelemetryCounts.TallyMeaning | bluefield/otel/telemetrystatsprocessor/telemetrystatsprocessor.go:307-325 | a batch adds to each counter the number of its points with that key and never moves a start time |
| TelemetryCounts.Conservation | bluefield/otel/telemetrystatsprocessor/telemetrystatsprocessor.go:170-325 | over any sequence of key lists a counter is the number of occurrences of its key and starts at the first list that had it |
| TelemetryCounts.Processor.ProcessAll | bluefield/otel/telemetrystatsprocessor/telemetrystatsprocessor.go:170-325 | a new processor ends, after any batches, with one counter per key that some data point has, equal to the number of those data points, started by the first batch with one |
| TelemetryCounts.Processor.CountAndScrape | bluefield/otel/telemetrystatsprocessor/telemetrystatsprocessor.go:170-381 | from the start, any batches and one scrape: one point per key that some data point has, valued the number of those data points, started by the first batch with one, labelled as each of those data points whose key holds no stray colon |
| TelemetrySelf.SelfCountExact | bluefield/otel/telemetrystatsprocessor/telemetrystatsprocessor.go:443-459 | the self-count covers the points it produces when the counter already exists, and misses one when it creates it |
| TelemetrySelf.ScrapeCollectsCounters | bluefield/otel/telemetrystatsprocessor/telemetrystatsprocessor.go:343-381 | a scrape collects one point per counter of its processor, with the counter's value, start and re-read key |
| TelemetrySelf.ReportListsCounters | bluefield/otel/telemetrystatsprocessor/telemetrystatsprocessor.go:443-478 | a report lists one item per shared counter, the self-count included, with its name, value and start |
| TelemetrySelf.LogsConserved | bluefield/otel/telemetrystatsprocessor/telemetrystatsprocessor.go:424-441 | in every interleaving the log counter is the number of log records scraped |
| TelemetrySelf.RunKeeps | bluefield/otel/telemetrystatsprocessor/telemetrystatsprocessor.go:343-441 | every interleaving of batches, scrapes, single sends, elections, reports, cleanups and endpoint requests keeps counter, reporter and reports in order |
| TelemetrySelf.SelfConservation | bluefield/otel/telemetrystatsprocessor/telemetrystatsprocessor.go:384-459 | in every interleaving the shared counter equals points sent, served and pending, one less exactly if the endpoint created it; at most one processor reports; values sent for a counter never go down |
| TelemetryHandOver.CleanupOrphans | bluefield/otel/telemetrystatsprocessor/telemetrystatsprocessor.go:118-133 | stopping leaves the election with a stopped processor exactly for an elected one with a log exporter |
| TelemetryHandOver.NoReportIff | bluefield/otel/telemetrystatsprocessor/telemetrystatsprocessor.go:405-422 | in every reachable state no continuation reports again exactly when the election names a stopped processor |
| TelemetryHandOver.OrphanedForever | bluefield/otel/telemetrystatsprocessor/telemetrystatsprocessor.go:405-422 | from then on the election stays so and no report point is sent |
| TelemetryHandOver.OrphanedReached | bluefield/otel/telemetrystatsprocessor/telemetrystatsprocessor.go:118-133 | from every reachable state some run ends so |
| TelemetryHandOver.OrphanedFromStart | bluefield/otel/telemetrystatsprocessor/telemetrystatsprocessor.go:118-133 | in particular from the start |
| TelemetryHandOver.RunElectable | bluefield/otel/telemetrystatsprocessor/telemetrystatsprocessor.go:405-422 | in every state of every run an elected processor takes part and a report being sent has points left |
| Planner.PlanChunk | crates/admin-cli/src/rpc.rs:2227-2264 | the chunk's list index equals the running function id, and each virtual function takes entry i of every list |
| Planner.PlanPf | crates/admin-cli/src/rpc.rs:2188-2264 | the per-device counter yields the number of earlier equal devices, and the physical function takes entry j of every list |
| Planner.PlanNics | crates/admin-cli/src/rpc.rs:2165-2271 | physical function j sits on the j-th NIC whose vendor contains "mellanox" in any case, with that NIC's device, numbered by the earlier ones with an equal device; each is followed by its chunk of virtual functions; every prefix and address is entry i of its list, or absent beyond the end |
| Planner.CountCheck | crates/admin-cli/src/rpc.rs:2288-2299 | the final count check succeeds exactly when there are enough devices and the chunks use up all virtual functions |
| Planner.PlanSpelled | crates/admin-cli/src/rpc.rs:2165-2271 | the computed list equals, position by position, that description, which mentions none of the functions that computed it |
| Planner.UsableIff | crates/admin-cli/src/rpc.rs:2177-2184 | the lower-casing test finds exactly the vendors that contain "mellanox" in any case |
| Planner.PlanInterfaces | crates/admin-cli/src/rpc.rs:2158-2299 | accepted exactly with discovery data, a tenant, no VF subnet, enough Mellanox NICs, and fewer VFs than PFs or a multiple of them; then the list holds all functions, position by position as described for the NIC loop |
| Planner.PfsDistinct | crates/admin-cli/src/rpc.rs:2194-2197 | no two physical functions share device and instance number |
| Planner.VfsPlaced | crates/admin-cli/src/rpc.rs:2228-2256 | each virtual function carries its own prefix and function id, and the device and instance of the physical function of its chunk, at a fixed place behind it |

## Left out

- Ipam.Ipamer.AcquireChild: does not model a requested length above the family's width, because what the IP-set library returns for it is not part of the repository.
- TelemetryIdentity.IdentifiesIff: does not decide a grouping by labels alone that has two different labels and lists every label at least twice; there both answers occur (`TelemetryIdentity.ListedTwiceIdentifies`, `TelemetryIdentity.AlternatingCollides`), and which one is a question about words on which two substitutions agree.
- Metadata that is present but has an empty id: the server's ids are not empty.
- SQL, bun, etcd, redis and mongo stores and the file store: they wrap drivers or file I/O.
- Parsing and printing of CIDR text, JSON and gob bytes, IPv6 zones, namespaces whose name contains `@`.
- Integer widths of record versions, counters and function ids: the numbers are unbounded here.
- Delays and the limit of ten attempts of the retry wrapper: a lost swap may be retried any number of times.
- Interleaving of `DeletePrefix` with other calls on the same record: its read, check and delete are one step, and concurrent claims cover one lifetime of the parent record.
- Usage strings, subnet counts and namespaces of the address manager: they would only add easy members.
- VF index and PF id of an existing Weave attachment: an in-place update does not compare them.
- `resource_version` and timestamps of Weave metadata, log output, sockets.
- Label renaming for configured labels and the log pipeline. Of the HTTP endpoint only the self-count of a request is modelled, as one step.
- The subnet and flat-VPC branches of `build_instance_request` and the rest of the request it builds.
