# A verified model of the VPC CNI node agent

This project models the node side of the Amazon VPC CNI plug-in in Dafny and proves what its parts promise: that pods
keep their addresses, that addresses rest before they are given out again, that the pool follows its targets and the
metadata service, that the iptables chains mean what the CIDR lists say, and that wiring up a pod and tearing it down
cancel each other.

`dafny verify dfyconfig.toml` checks everything.

## How it is laid out

| module | what it holds |
|---|---|
| `Types`, `Sums` | shared types; sums over finite maps |
| `AddressStore`, `DataStores` | the address store: as a value with its invariants, and as a class whose methods are its critical sections |
| `Daemon`, `Cooling`, `Bypass` | the daemon as a transition system: RPC handlers and the pool manager interleave at the store's lock, with a clock; the cooling theorem, and runs of the manager's policy that break it |
| `PoolPolicy`, `Shrinking`, `Reconciling`, `Ipamd`, `Refinement` | the warm targets; what shrinking and reconciling amount to; the manager's procedures, with the cooldown cache; that these are runs of the daemon |
| `Rpc` | the two RPC handlers |
| `Cidrs`, `Snat`, `SnatMeaning`, `HostNetwork` | networks; the SNAT chains: what should be there, what a run leaves behind, what it does to a packet, and the procedure itself |
| `PolicyRules`, `Leftovers`, `RuleMeaning`, `PodNetwork` | IP rules and routes of pods: their algebra, the operations over whatever is there already, which table decides for a packet, and the driver |
| `Node`, `KeptApart` | the whole node with daemon and plug-in steps, and runs in which calls on one address are kept apart |
| `EniLifecycle` | creating, attaching and cleaning up ENIs at EC2 with bounded retries |
| `Metrics`, `Slices` | the metrics helper's in-place deltas; comparison of slices up to order |

Code that changes state in place is a class or a method here, proved against a function or relation on values; the
properties that span several calls or whole runs are lemmas about those functions and relations.

## Conventions

- Time is an integer number of nanoseconds and 0 is the zero time stamp. A clock reading is a parameter; one call reads
  the clock once. The clock never runs backwards.
- Everything EC2, the metadata service, iptables and netlink may answer is a parameter or a non-deterministic choice,
  and a call that fails changes nothing.
- Maps are visited in any order.
- In the transition system an address that is new to an ENI is new to the store, because EC2 gives an address to one ENI
  only; `AddressStore.AddIPSoundIff` shows that this is exactly what soundness needs. Recovered pods carry addresses
  that no other pod holds; `AddressStore.TakeSoundIff` shows the same for that.
- The manager's shrinking plan is an arbitrary list of addresses, which covers reading pods, pools and counters without
  the lock.
- Two ways in and out of the store do not consult the cooldown cache: growth, and sweeping what the metadata service no
  longer reports. The cooling theorem covers runs in which no address that is still cooling takes one of these ways
  unrecorded. Runs that leave the store only by shrinking or ENI removal and return only by reconciliation are such
  runs, and so are all runs in which growth and sweeps make the tests of `Cooling.TestedIsCool`, which look at the store
  and the cache only. `Cooling.CoolStepIsExact`, `Cooling.GrowthBreaksCooling` and `Bypass.RestIsNotGuaranteed` show
  that a condition is needed.
- At the level of the node nothing is assumed about timing: adds and dels overlap freely, break off anywhere and may
  never finish, and the kernel may hold rules from before the start. What `Node.AddThenDel` needs is that no other
  plug-in call works on the address meanwhile. `KeptApart` derives that from the address not being given out while a
  call on it is unfinished and from a pod's own calls not overlapping, and that in turn from dels that end within the
  cooling period.
- The kernel lists rules by priority and, within a priority, in the order of their addition. The model appends, which is
  the same within a priority; a pod's rules are compared as multisets wherever rules of both priorities may be mixed.
- `RuleMeaning` is about the rules of wired pods among rules that come after them, such as those for the main and default
  tables; a rule names the table that decides, and what that table holds is not looked at.
- At the start no rule in the kernel that names a source has the priority of to-pod rules.

## Where the code falls short of its intent

- Growth takes addresses past the cooldown cache (`Bypass.BypassContinues`, `Bypass.RestIsNotGuaranteed`).
- A target of 0 warm ENIs has no hysteresis (`PoolPolicy.RemovalMakesTooLowIff`, `PoolPolicy.IncreaseMakesRemovableIff`,
  `PoolPolicy.ThrashingCycle`).
- `AllocENI` can report success with an empty id, because the clean-up's error replaces the original one
  (`EniLifecycle.GoneENILosesError`).
- A device index of exactly 128 lies outside the array that the guard is meant to protect: the program panics after the
  ENI was created and leaves it behind (`EniLifecycle.LimitIndexLeavesENI`).
- An add whose set-up breaks off gives its address back without removing the rules it has installed. A later add of that
  address with the same internal setting makes up for it (`Leftovers.RetryRecovers`), and a complete tear-down clears it;
  an add with another table, mode or CIDR list inherits the rules or fails (`Leftovers.SetupInstallsIff`,
  `Leftovers.OtherTableStays`).
- A histogram that gains buckets between polls crashes the metrics helper (`Metrics.MoreBucketsDoNotFit`).
- With external SNAT, duplicates of a rule are removed one per run (`SnatMeaning.HistoryFreeIff`, `SnatMeaning.DuplicatesSurvive`).
- A pod set up with an empty CIDR list has no from-pod rule, and re-plumbing then installs none
  (`Leftovers.UpdateAgreesWithSetupIff`).

## Model

| member | source | states |
|---|---|---|
| AddressStore.CountersBounds | ipamd/datastore/data_store.go:163-315 | with the counters in step with the pools, 0 <= assigned <= total, and what is available is the sum of what each ENI has free |
| AddressStore.AddENICounters | ipamd/datastore/data_store.go:163-181 | adding an ENI, or refusing a known one, keeps total and assigned equal to the sums over the pools |
| AddressStore.AddIPCounters | ipamd/datastore/data_store.go:184-208 | adding an address, with all its refusals, keeps the counters in step |
| AddressStore.DelIPCounters | ipamd/datastore/data_store.go:211-239 | deleting an address, with all its refusals, keeps the counters in step |
| AddressStore.AssignPodCounters | ipamd/datastore/data_store.go:243-315 | assigning, refusing or re-assigning an address keeps the counters in step, whichever slot the map order offers first |
| AddressStore.UnassignPodCounters | ipamd/datastore/data_store.go:451-489 | releasing or refusing to release keeps the counters in step |
| AddressStore.RemoveUnusedCounters | ipamd/datastore/data_store.go:401-422 | removing an unused ENI keeps the counters in step |
| AddressStore.IndexIsBijection | ipamd/datastore/data_store.go:243-315 | in a sound store the pod index maps pods one to one onto exactly the assigned addresses, its size is the assigned counter, and each recorded device number is that of the ENI that owns the address |
| AddressStore.AddIPSoundIff | ipamd/datastore/data_store.go:184-208 | the duplicate test covers one ENI only: the store stays sound if and only if the address is non-empty and unknown to every ENI |
| AddressStore.TakeSoundIff | ipamd/datastore/data_store.go:283-301 | taking a slot for a new pod keeps the store sound if and only if the slot was not assigned (recovery accepts one that is) |
| AddressStore.DelIPSound | ipamd/datastore/data_store.go:211-239 | a successful deletion keeps the store sound and leaves the address neither in the store nor with a pod |
| AddressStore.DropENISound | ipamd/datastore/data_store.go:401-447 | dropping a podless ENI keeps the store sound and none of its addresses is held by a pod |
| AddressStore.AddENISound | ipamd/datastore/data_store.go:163-181 | adding an ENI keeps the store sound |
| AddressStore.EligibleIsFreeAndCooled | ipamd/datastore/data_store.go:278-303 | skipping full ENIs loses nothing: a slot can serve a request without address if and only if it is free and past its cooling period |
| AddressStore.RefusedIffAllBusyOrCooling | ipamd/datastore/data_store.go:271-307 | an unknown pod without an address is refused if and only if every address is assigned or still cooling |
| AddressStore.AssignPodSound | ipamd/datastore/data_store.go:243-307 | a granted address was nobody's before, and afterwards is this pod's alone; a refusal changes nothing |
| AddressStore.RecoverPodSound | ipamd/datastore/data_store.go:243-293 | recovering a pod onto an address that no pod holds keeps the store sound and all other pods as they were |
| AddressStore.RecoveredIff | ipamd/datastore/data_store.go:271-293 | a pod that names an address and is not indexed is granted it if and only if some ENI has it, full or not, with that ENI's device number, and the slot is then assigned and indexed |
| AddressStore.KnownPodAnswer | ipamd/datastore/data_store.go:252-266 | an indexed pod is told what is on record if and only if it names that address, and nothing changes |
| AddressStore.GrantTellsDevice | ipamd/datastore/data_store.go:295-303 | whoever is granted an address is told the device number of the ENI that has it |
| AddressStore.UnassignPodSound | ipamd/datastore/data_store.go:451-489 | a pod of a sound store is always released and gets back exactly the address and device number on record; an unknown one changes nothing |
| AddressStore.RemoveUnusedKeepsTarget | ipamd/datastore/data_store.go:324-422 | a removed ENI is secondary, podless, past its minimum life and out of cooling, and with a warm-IP target what stays available still meets it |
| AddressStore.NothingRemovedIff | ipamd/datastore/data_store.go:334-380 | nothing is removed if and only if every ENI is primary, younger than a minute, has had a release within the last minute, carries pods, or is needed for the warm-IP target |
| AddressStore.CleanNamesDistinct | ipamd/datastore/data_store.go:492-506 | pod names built from name, namespace and container are distinct when name and namespace contain no underscore |
| AddressStore.UnderscoresCollide | ipamd/datastore/data_store.go:492-506 | two different pods with underscores can share such a name |
| DataStores.DataStore.constructor | ipamd/datastore/data_store.go:154-160 | a new store is empty and its counters are in step |
| DataStores.DataStore.AddENI | ipamd/datastore/data_store.go:163-181 | the new state and the error are those of the value-level addition; counters stay in step |
| DataStores.DataStore.AddIPv4AddressFromStore | ipamd/datastore/data_store.go:184-208 | the new state and the error (unknown ENI, duplicate) are those of the value-level addition |
| DataStores.DataStore.DelIPv4AddressFromStore | ipamd/datastore/data_store.go:211-239 | the new state and the error (unknown ENI, unknown address, address in use) are those of the value-level deletion |
| DataStores.DataStore.AssignPodIPv4Address | ipamd/datastore/data_store.go:243-268 | the answer for a known pod, or the outcome of the search, as a relation between old and new state |
| DataStores.DataStore.AssignUnsafe | ipamd/datastore/data_store.go:271-307 | the nested search in any map order finds an eligible slot if there is one, and refuses only when there is none |
| DataStores.DataStore.MarkUnassigned | ipamd/datastore/data_store.go:471-482 | one slot returns to the pool, stamped with the time, in step with both counters and the index |
| DataStores.DataStore.UnassignPodIPv4Address | ipamd/datastore/data_store.go:451-489 | the release, or the refusal for an unknown pod or an unknown address, as a relation between old and new state |
| DataStores.DataStore.GetPodInfos | ipamd/datastore/data_store.go:492-506 | every listed entry is some pod of that name, and every pod's name is listed |
| DataStores.DataStore.IsRequiredForWarmIPTarget | ipamd/datastore/data_store.go:324-332 | true if and only if the free addresses of all other ENIs together are below the target |
| DataStores.DataStore.GetDeletableENI | ipamd/datastore/data_store.go:334-365 | finds a deletable ENI if there is one, and reports none only if there is none |
| DataStores.DataStore.RemoveUnusedENIFromStore | ipamd/datastore/data_store.go:401-422 | one deletable ENI goes together with its addresses, or nothing changes because there is none |
| DataStores.DataStore.RemoveENIFromDataStore | ipamd/datastore/data_store.go:425-447 | the new state and the error (unknown ENI, ENI in use) are those of the value-level removal |
| DataStores.DataStore.GetENINeedsIP | ipamd/datastore/data_store.go:383-396 | finds an ENI with room if there is one, passing over the primary on request |
| Daemon.SafeStep | ipamd/ipamd.go:456-551 | every step of every thread keeps the store sound and keeps what the manager has taken out of it out of it |
| Daemon.NoPodLosesItsAddress | ipamd/ipamd.go:456-551 | over every interleaving: the index is a bijection with counters to match in every reachable state, and whenever addresses are deallocated or an ENI is freed no pod holds any of them |
| Daemon.FreedENIGone | ipamd/ipamd.go:456-469 | while an ENI is on its way to EC2 the store does not know it, whatever the RPC handlers do meanwhile |
| Daemon.HoldingRun | ipamd/datastore/data_store.go:243-315 | over every interleaving a pod keeps its address and device number until it is released itself |
| Daemon.ReleaseReturnsGrant | ipamd/rpc_handler.go:49-105 | over every interleaving the release of a pod returns exactly what its request was granted |
| Daemon.RecoveredKeepsAddress | ipamd/ipamd.go:334-360 | over every run a pod whose address is in the store when it is recovered gets exactly that address, and nobody else is granted it before that pod is released |
| Daemon.GrantTellsAttachment | ipamd/ipamd.go:684-693 | over every run a pod granted an address of an ENI is told the device number under which that ENI was attached |
| Cooling.CoolInvStep | ipamd/ipamd.go:935-1004 | every step that does not bypass the cooldown cache keeps the memory of each recent release in the slot, in the manager's hands or in the cache |
| Cooling.ReleasedAddressRests | ipamd/datastore/data_store.go:295-303 | over every such run an address released at t is never granted at or before t plus the cooling period, whether it stayed in the store or left and came back through reconciliation |
| Cooling.RemovableIsCooled | ipamd/datastore/data_store.go:373-375 | an ENI past its own cooling period carries no address that is still cooling |
| Cooling.CoolStepIsExact | ipamd/ipamd.go:177-204 | the condition on bypassing steps is exact: the invariant survives a step if and only if the step meets it |
| Cooling.GrowthBreaksCooling | ipamd/ipamd.go:710-726 | once growth has added a still-cooling address, a request can be granted it at that very instant, before the end of its cooling period |
| Cooling.RestingIsCached | ipamd/ipamd.go:177-204 | an address that is still cooling and out of the store always has an unexpired entry in the cooldown cache |
| Cooling.TestedIsCool | ipamd/ipamd.go:936-973 | the test that reconciliation makes on the cache, made by growth as well, and a test of the slot stamp by sweeps, are enough to keep the cooling period |
| Cooling.TestedAddressRests | ipamd/datastore/data_store.go:295-303 | over every run in which growth and sweeps make those tests, no address is granted at or before the end of its cooling period |
| Bypass.SweepBreaksCooling | ipamd/ipamd.go:992-1003 | an address that is swept while it still cools and is not recorded can be found again by growth, once the pool is too low, at any later time, and is granted there and then |
| Bypass.BypassContinues | ipamd/ipamd.go:473-512 | any run that follows the manager's policy and has come to a pool exactly at its warm-IP target, with another address ready, can go on: release, shrinking by the surplus of one, refusal by EC2, a request that leaves the pool too low, growth at any later time, and the grant of the address at that time |
| Bypass.RestIsNotGuaranteed | ipamd/ipamd.go:473-512 | a run of the policy from the start, with two addresses and a target of one, in which an address is shrunk away, regrown one monitor interval later and granted within its cooling period |
| PoolPolicy.MarkAndSweep | ipamd/ipamd.go:935-1004 | adding what is admitted and then deleting the unmarked free addresses is the set equation of reconciliation |
| PoolPolicy.ExtendByOne | ipamd/ipamd.go:710-726 | one more addition extends a pass over an ENI, whether or not the address was known |
| PoolPolicy.ReduceByOne | ipamd/ipamd.go:490-505 | one more deletion reduces the ENI by that address, unless it is assigned or gone |
| PoolPolicy.IncreaseGrowth | ipamd/ipamd.go:553-678 | one increase never takes anything away and adds at most one ENI's worth of addresses |
| PoolPolicy.GrownBy | ipamd/ipamd.go:710-726 | an increase makes exactly the reported addresses available that the store did not know |
| PoolPolicy.WarmIPThresholds | ipamd/ipamd.go:816-866 | with a warm-IP target the pool is too low if and only if fewer addresses are available, too high if and only if more, and extra ENIs are always looked for |
| PoolPolicy.RemovalMakesTooLowIff | ipamd/ipamd.go:816-866 | in warm-ENI mode a removal leaves the pool too low if and only if the target is 0 and the ENI carried all that was available |
| PoolPolicy.IncreaseMakesRemovableIff | ipamd/ipamd.go:816-866 | in warm-ENI mode an increase makes an ENI removable if and only if the target is 0 and the ENI brings a whole ENI's worth of addresses that were not known |
| PoolPolicy.ThrashingCycle | ipamd/ipamd.go:816-866 | with target 0 and one address per ENI: beside a busy primary the spare ENI is removable and goes, the pool is then too low, a new ENI comes in, and that one is removable again |
| Ipamd.ReconcileCooldownCache.Add | ipamd/ipamd.go:177-184 | every listed address gets the new expiry and no other entry changes |
| Ipamd.ReconcileCooldownCache.Remove | ipamd/ipamd.go:187-192 | that entry goes and no other |
| Ipamd.ReconcileCooldownCache.RecentlyFreed | ipamd/ipamd.go:195-204 | found if and only if cached; recently freed if and only if its expiry is still ahead |
| Ipamd.IPAMContext.constructor | ipamd/ipamd.go:221-244 | a new context has an empty store, an empty cooldown cache and no recorded primary address |
| Ipamd.IPAMContext.FindFreeableIPs | ipamd/ipamd.go:516-551 | distinct addresses of the ENI, no more than the surplus; with distinct pod names only free ones, and all of them if fewer than the surplus |
| Ipamd.IPAMContext.DeleteIPs | ipamd/ipamd.go:490-505 | exactly those of the planned addresses that are free at the time of deletion go |
| Ipamd.IPAMContext.ShrinkENI | ipamd/ipamd.go:477-510 | one ENI contributes what it can towards the target, and what went is in the cooldown cache |
| Ipamd.IPAMContext.TryUnassignIPsFromAll | ipamd/ipamd.go:473-512 | in any map order: only free addresses go, all are cached, the target is never undershot, and with distinct pod names it is met exactly |
| Shrinking.ListedAreAssigned | ipamd/ipamd.go:516-535 | with distinct pod names the listing shows exactly the assigned addresses |
| Shrinking.ProgressStep | ipamd/ipamd.go:473-512 | visiting one more ENI keeps the target, and leaves either the target met exactly or nothing free on the ENIs visited |
| Shrinking.ProgressDone | ipamd/ipamd.go:473-512 | once all ENIs are visited the available addresses equal the target |
| Ipamd.IPAMContext.GetENIaddresses | ipamd/ipamd.go:729-742 | an answer if and only if EC2 describes the ENI with a primary address, and then that address is one marked primary |
| Ipamd.IPAMContext.AddENIaddressesToDataStore | ipamd/ipamd.go:710-726 | exactly the secondary addresses not yet known come in; the last one marked primary is handed back |
| Reconciling.RecordedPrimaryIsPrimary | ipamd/ipamd.go:710-726 | the address recorded as primary is one that EC2 marks as primary |
| Ipamd.IPAMContext.SetupENI | ipamd/ipamd.go:684-707 | the new store, the outcome, the attributes with which the ENI enters, and the recorded primary address, which stays unset when set-up fails after the ENI was added |
| Reconciling.SetUpEnters | ipamd/ipamd.go:684-707 | an unknown ENI enters the store if and only if it could be described, with the reported device number, the right primary flag, the current time, no pods and, if it could be filled, exactly its secondary addresses; no other ENI changes |
| Reconciling.PrimaryStaysOut | ipamd/ipamd.go:936-940 | the one primary address of an ENI that was set up never comes in by reconciliation |
| Ipamd.IPAMContext.CheckLocalIP | ipamd/ipamd.go:936-973 | an address may come in if and only if it is not the recorded primary and is uncached or expired and confirmed by EC2; only then is its entry cleared |
| Reconciling.AdmittedNext | ipamd/ipamd.go:936-981 | clearing an entry on the way does not change which later addresses are admitted |
| Ipamd.IPAMContext.EniIPPoolReconcile | ipamd/ipamd.go:935-1004 | the new pool is exactly the admitted reported addresses and the known assigned ones, kept entries unchanged, total moved by the difference, and exactly the expired and confirmed cache entries cleared |
| Reconciling.ReconciledIs | ipamd/ipamd.go:935-1004 | written out: an address is in the pool afterwards if and only if it was assigned, or is reported, is not the recorded primary and has no cooldown entry, or one that has run out while EC2 lists the address; kept entries are unchanged |
| Refinement.ReconcileLeads | ipamd/ipamd.go:935-1004 | the pass is a run of the daemon: cooldown checks, admissions and deletions lead from the old store and cache to exactly the new ones |
| Refinement.ShrunkThenReconciled | ipamd/ipamd.go:473-512 | addresses that shrinking took out are in no pool after a reconciliation within the next minute, and are back after a later one that reports them while EC2 lists them |
| Refinement.ShrinkLeads | ipamd/ipamd.go:477-510 | shrinking one ENI is a run of the daemon, whether or not EC2 takes the addresses back |
| Refinement.SetUpLeads | ipamd/ipamd.go:684-726 | setting up an ENI is a run of the daemon |
| Refinement.RunContinues | ipamd/ipamd.go:410-418 | a run can be continued by any steps that lead on from its end |
| Ipamd.IPAMContext.Sweep | ipamd/ipamd.go:992-1003 | deleting the unmarked addresses, refused for assigned ones, completes the set equation |
| Ipamd.IPAMContext.MarkENIs | ipamd/ipamd.go:893-918 | the mark phase is each attached ENI in turn, reconciled if known and set up otherwise, and what is left over is the detached ENIs |
| Reconciling.MarkAllMarked | ipamd/ipamd.go:893-918 | after the mark phase the known ENIs are those known before and the attached ones that could be described, and nothing assigned is lost |
| Reconciling.EveryENIMarked | ipamd/ipamd.go:893-918 | when each ENI and address is reported once, every attached ENI comes out of the mark phase reconciled as the written-out condition says, or entered with the reported attributes |
| Ipamd.IPAMContext.MarkENI | ipamd/ipamd.go:896-917 | one attached ENI: exactly the reconciled pool, cache and primary record, or exactly the set-up ones |
| Ipamd.IPAMContext.SweepENIs | ipamd/ipamd.go:920-930 | exactly the podless detached ENIs go, the others stay as they are, and nothing assigned is lost |
| Ipamd.IPAMContext.NodeIPPoolReconcile | ipamd/ipamd.go:873-933 | nothing happens too early or without metadata; otherwise the known ENIs are the attached ones known or described plus the detached ones with pods, every assigned address stays with its entry unchanged, and every attached ENI holds exactly what its own set equation asks when each is reported once |
| Ipamd.IPAMContext.TryAssignIPs | ipamd/ipamd.go:644-678 | addresses are allocated if and only if the pool wants more, some ENI has room and EC2 allocates; then exactly what EC2 describes for that ENI has come in |
| Ipamd.IPAMContext.TryAllocateENI | ipamd/ipamd.go:589-641 | the new store is exactly that of setting up the ENI that EC2 attached, or nothing has changed; its primary address is recorded only if set-up went to the end |
| Ipamd.IPAMContext.IncreaseIPPool | ipamd/ipamd.go:553-580 | the new store is exactly what EC2's answers make it: one ENI with room filled up, failing that another ENI set up below the ENI limit, or nothing; an ENI that is new has the reported attributes; the time of the last pool action moves exactly when something was filled or an attachment was tried |
| Reconciling.FilledIsGrown | ipamd/ipamd.go:644-678 | filling up an ENI brings in exactly the addresses described for it, which ties the increase to what decides about removal |
| Reconciling.OneAddressSuffices | ipamd/ipamd.go:644-678 | with room on some ENI and more wanted, the pool is filled if and only if EC2 gives all or at least one address, and then exactly what EC2 lists as secondary for the ENI is added |
| Reconciling.NewENIComesIn | ipamd/ipamd.go:589-641 | with EC2 willing, the new ENI comes in under the reported device number, created now, with exactly its secondary addresses |
| Reconciling.OnlyAttachedComesIn | ipamd/ipamd.go:589-641 | whatever EC2 answers, an ENI that an increase brings in is the attached one as it is described |
| Rpc.Server.AddNetwork | ipamd/rpc_handler.go:49-84 | a request never names an address; the reply carries the grant, the SNAT mode and the CIDRs, with the exclusions only for internal SNAT; a refusal carries neither address nor device |
| Rpc.Server.DelNetwork | ipamd/rpc_handler.go:86-105 | release under the pod's key or, only if that is unknown, under the key without container; a sound store stays sound and an unknown pod changes nothing |
| Snat.AtoiItoa | pkg/networkutils/network.go:294-295 | decimal chain numbers can be read back, so numbered chains have distinct names |
| Snat.ChainNames | pkg/networkutils/network.go:294-302 | chain names are distinct, carry the prefix that listing looks for, and are not POSTROUTING |
| Cidrs.ContainsIsBlock | pkg/networkutils/network.go:278-284 | a network covers exactly the block of addresses that starts at its base |
| Cidrs.ExtremePrefixes | pkg/networkutils/network.go:278-284 | the shortest prefix covers every address, the longest one address |
| SnatMeaning.InternalSnatMeaning | pkg/networkutils/network.go:274-440 | from any prior table, after a run with internal SNAT the first chain terminates and translates a packet if and only if it is non-local and outside every VPC and excluded CIDR; POSTROUTING leads there |
| SnatMeaning.SynchronisedChain | pkg/networkutils/network.go:284-440 | a run acts on each chain as that chain's own wanted, stale and pre-1.3 entries do |
| SnatMeaning.InternalChain | pkg/networkutils/network.go:304-379 | with internal SNAT each numbered chain holds its one rule, as often as before but at least once, and nothing else |
| SnatMeaning.ExternalChain | pkg/networkutils/network.go:304-379 | with external SNAT each numbered chain holds only surplus copies of its own rule, one fewer than before |
| SnatMeaning.SurplusChain | pkg/networkutils/network.go:362-379 | chains whose names start with AWS-SNAT-CHAIN, beyond the numbered ones, end up empty in either mode |
| SnatMeaning.UnrelatedChain | pkg/networkutils/network.go:418-440 | chains that are neither SNAT chains nor POSTROUTING are untouched |
| SnatMeaning.Postrouting | pkg/networkutils/network.go:304-313 | POSTROUTING gains or loses one jump and loses one pre-1.3 rule, nothing else |
| SnatMeaning.PostroutingMeaning | pkg/networkutils/network.go:304-440 | from a POSTROUTING chain with nothing but jumps and at most one pre-1.3 rule, the whole chain translates a packet if and only if it is non-local and outside every CIDR, with the randomisation that the configuration asks for and iptables can do |
| SnatMeaning.HistoryFreeIff | pkg/networkutils/network.go:304-379 | the numbered chains depend on the configuration alone if and only if none held a duplicate of its own rule |
| SnatMeaning.ExternalJumpGoneIff | pkg/networkutils/network.go:304-313 | with external SNAT the jump is gone if and only if there was at most one |
| SnatMeaning.RunSettlesIff | pkg/networkutils/network.go:418-440 | a run settles the table if and only if, with external SNAT, no rule that has to go was there twice |
| SnatMeaning.SettledIsFixedIff | pkg/networkutils/network.go:405-440 | a settled table is a fixed point if and only if no pre-1.3 rule is left |
| SnatMeaning.SecondRunIff | pkg/networkutils/network.go:418-440 | from any prior table a second run changes nothing if and only if POSTROUTING held at most one pre-1.3 rule before the first and, with external SNAT, no rule that has to go was there twice |
| SnatMeaning.DuplicatesSurvive | pkg/networkutils/network.go:418-440 | a table with duplicates on which a run with external SNAT leaves the jump and the translation in force |
| SnatMeaning.SurplusMoves | pkg/networkutils/network.go:418-440 | as long as there is a surplus, another run changes the table again |
| HostNetwork.LinuxNetwork.BuildCIDRs | pkg/networkutils/network.go:278-284 | the VPC CIDRs followed by the excluded ones |
| HostNetwork.LinuxNetwork.ListCurrentSNATRules | pkg/networkutils/network.go:444-478 | every rule of every chain with the SNAT prefix, in listing order |
| HostNetwork.LinuxNetwork.NewChains | pkg/networkutils/network.go:293-302 | all numbered chains exist, those there before with their rules |
| HostNetwork.LinuxNetwork.BuildRules | pkg/networkutils/network.go:304-361 | the jump, one rule per CIDR linking to the next chain, and the SNAT rule on the last |
| HostNetwork.LinuxNetwork.SelectStale | pkg/networkutils/network.go:362-379 | of the current rules exactly those that no wanted rule on the same chain equals |
| HostNetwork.LinuxNetwork.ApplyRules | pkg/networkutils/network.go:418-440 | when no call fails, all entries have been applied in order; otherwise those before the failure |
| HostNetwork.LinuxNetwork.SetupHostNetwork | pkg/networkutils/network.go:274-440 | when no call fails, the table is the synchronised one and, with internal SNAT, has the meaning above for every packet; whatever fails, unrelated chains keep their rules |
| HostNetwork.EntriesKeep | pkg/networkutils/network.go:418-440 | a run that breaks off anywhere leaves chains alone that are neither SNAT chains nor POSTROUTING |
| HostNetwork.UnwantedCurrent | pkg/networkutils/network.go:362-379 | listing all rules and dropping the wanted ones leaves the stale ones |
| Leftovers.SetupInstallsIff | plugins/routed-eni/driver/driver.go:218-266 | over any rules: set-up succeeds and leaves the pod exactly its rules if and only if the leftovers are what set-up deletes itself and, with internal SNAT, from-pod rules that it would add anyway, each once; other rules are never touched |
| Leftovers.RetryRecovers | plugins/routed-eni/driver/driver.go:239-262 | an internal set-up that broke off after any number of its from-pod rules is completed by another one with the same setting |
| Leftovers.OtherTableStays | plugins/routed-eni/driver/driver.go:228-262 | a leftover from-pod rule for another table is never absorbed |
| Leftovers.SetupInstalls | plugins/routed-eni/driver/driver.go:218-266 | from a clean start the rules are the installed ones, in the order in which they are added |
| Leftovers.SetupActsOnMine | plugins/routed-eni/driver/driver.go:218-291 | set-up acts on the pod's own rules alone, whatever is there |
| Leftovers.SetupStageContained | plugins/routed-eni/driver/driver.go:218-291 | wherever set-up breaks off, no rule of another pod has changed |
| Leftovers.TeardownActsOnMine | plugins/routed-eni/driver/driver.go:299-333 | tear-down acts on the pod's own rules alone, whatever is there |
| Leftovers.TeardownClearsIff | plugins/routed-eni/driver/driver.go:299-333 | tear-down leaves nothing of the pod if and only if at most one of its rules is not a from-pod rule and, on the main ENI, it has no from-pod rules |
| Leftovers.TeardownOfSame | plugins/routed-eni/driver/driver.go:299-333 | tear-down of a pod that has exactly the installed rules, in whatever order, removes them and nothing else |
| Leftovers.TeardownStageContained | plugins/routed-eni/driver/driver.go:299-333 | wherever tear-down breaks off, no rule of another pod has changed |
| PolicyRules.TeardownRemoves | plugins/routed-eni/driver/driver.go:299-333 | tear-down of a pod whose rules are those installed, among any others, removes exactly its rules |
| PolicyRules.OtherSetupKeeps | plugins/routed-eni/driver/driver.go:218-291 | set-up of one pod leaves the rules of another alone |
| PolicyRules.OtherTeardownKeeps | plugins/routed-eni/driver/driver.go:299-333 | tear-down of one pod leaves the rules of another alone, although deletion matches by pattern |
| PolicyRules.DelSource | pkg/networkutils/network.go:833-862 | deleting the listed rules of a source one by one removes exactly the rules of that source |
| Leftovers.UpdateActsOnSource | pkg/networkutils/network.go:865-931 | from any listing, an update touches no rule of another source; a listing without rules for the source changes nothing, any other deletes what it leads to and adds the new rules |
| Leftovers.UpdateReplacesIff | pkg/networkutils/network.go:865-931 | an update succeeds and leaves the source exactly the rules of the new setting if and only if deleting what is listed leaves none of the source's rules and no destination is named twice |
| Leftovers.CurrentListing | pkg/networkutils/network.go:865-931 | a listing that is current for the source leads to all of its rules |
| Leftovers.UpdateAgreesWithSetupIff | pkg/networkutils/network.go:865-931 | an update yields the from-pod rules that set-up would install if and only if the pod had such a rule before or the new setting asks for none |
| Leftovers.DelAllContained | pkg/networkutils/network.go:833-862 | deleting any number of the listed rules of a source changes no rule of another pod |
| RuleMeaning.ToPodUsesMain | plugins/routed-eni/driver/driver.go:218-226 | a packet to a wired pod is decided by the main table, whatever its source |
| RuleMeaning.FromPodUsesTableIff | plugins/routed-eni/driver/driver.go:228-266 | a packet from a wired pod to no wired pod is decided by its own table if and only if it is on a secondary ENI and SNAT is external or the destination lies in one of its CIDRs |
| RuleMeaning.StrangersUnaffected | plugins/routed-eni/driver/driver.go:218-266 | a packet neither from nor to a wired pod is decided by no pod's rule |
| RuleMeaning.SetupMeaning | plugins/routed-eni/driver/driver.go:218-266 | after set-up on a clean address, among the rules of any other wired pods, every packet of every wired pod is decided as its setting says |
| RuleMeaning.UpdateMeaning | pkg/networkutils/network.go:865-931 | the same after re-plumbing to a new SNAT setting or CIDR list |
| RuleMeaning.TeardownPlumbs | plugins/routed-eni/driver/driver.go:299-333 | after tear-down the rules are those of the other wired pods |
| PodNetwork.Driver.AddContainerRule | plugins/routed-eni/driver/driver.go:270-291 | on success the old rule is replaced by the new one; otherwise the rules are as before, without the old rule, or as on success |
| PodNetwork.Driver.SetupNS | plugins/routed-eni/driver/driver.go:201-266 | on success the rules are those of set-up and the host route points to the pod's interface; wherever it breaks off, the rules are exactly at a stage of set-up, the route is set or no rule has changed, and no rule of another pod has changed |
| PodNetwork.Driver.TeardownNS | plugins/routed-eni/driver/driver.go:299-333 | when the kernel reports nothing but missing entries, the rules are those of tear-down and the host route is gone; in every case the rules are exactly at a stage of tear-down, a reported success leaves no from-pod rule, a reported failure keeps the route, and no rule of another pod changes |
| PodNetwork.RuleAgent.GetRuleListBySrc | pkg/networkutils/network.go:822-830 | exactly the rules with that source address, in order |
| PodNetwork.RuleAgent.DeleteRuleListBySrc | pkg/networkutils/network.go:833-862 | on success exactly the rules of the source are gone; whatever fails, no rule of another pod changes |
| PodNetwork.RuleAgent.UpdateRuleListBySrc | pkg/networkutils/network.go:865-931 | on success the rules are those of the update; whatever the listing and whatever fails, no rule of another source changes |
| PodNetwork.RuleAgent.AddFromPodRules | pkg/networkutils/network.go:895-915 | on success all rules were added, which takes a list without duplicates; whatever fails, no rule of another pod changes |
| Node.TeardownEffect | plugins/routed-eni/driver/driver.go:299-333 | tear-down acts on the rules of its address as on those alone, and leaves all other rules and routes as they are |
| Node.AddThenDel | plugins/routed-eni/cni.go:264-289 | in any run, with failed adds and dels, recovered pods and any manager steps: del gets the address and device number of add; if no other plug-in call works on the address in between, it finds exactly what add left and changes nothing else; if add could absorb what was there before, that is the installed rules and all of them go |
| Node.UntouchedRun | plugins/routed-eni/cni.go:140-178 | over every run the rules and route of an address change only by plug-in calls on that address |
| KeptApart.AddThenDelApart | plugins/routed-eni/cni.go:264-289 | when an address is not given out while a plug-in call on it is unfinished: the same round trip with any steps for other pods and any manager steps in between, and on an address that is not left half-way after the set-up exactly the installed rules are found and removed |
| KeptApart.NoOtherTouches | plugins/routed-eni/cni.go:140-178 | in such runs no other plug-in call works on a pod's address from its add to the end of its del |
| KeptApart.ExactStep | plugins/routed-eni/cni.go:179-205 | every step, failed set-ups with their compensating release included, keeps the rules of every address that is not left half-way exactly those of its wired pod, or none |
| KeptApart.ResidueGrows | plugins/routed-eni/cni.go:179-205 | an address is left half-way only by a set-up or tear-down of it that broke off |
| KeptApart.TimelyRunIsGuarded | ipamd/datastore/data_store.go:295-303 | with a cool daemon, dels that end within the cooling period and no overlap of a pod's own calls, every run is such a run |
| EniLifecycle.AwsGetFreeDeviceNumber | pkg/awsutils/awsutils.go:504-543 | the lowest index in no use, if there is one; a panic if and only if some index is 128 or negative, an interface has no attachment, or there is no instance |
| EniLifecycle.EC2InstanceMetadataCache.DeleteENI | pkg/awsutils/awsutils.go:776-802 | deleted if and only if one of 20 calls succeeds; otherwise given up after exactly 20 failures with nothing changed |
| EniLifecycle.EC2InstanceMetadataCache.FreeENI | pkg/awsutils/awsutils.go:719-774 | for every sequence of answers: removed, already gone, or given up after a describe error, exactly 21 failed detaches or exactly 20 failed deletes, or a panic for want of an attachment, each with the state EC2 is left in |
| EniLifecycle.EC2InstanceMetadataCache.AttachENI | pkg/awsutils/awsutils.go:587-612 | attached if and only if a device is free and EC2 agrees, a panic if and only if the device scan panics, and otherwise nothing changed |
| EniLifecycle.EC2InstanceMetadataCache.AllocENI | pkg/awsutils/awsutils.go:547-584 | for every sequence of answers, the fate of the ENI and the exact conditions on the answers for a crash, for success, for an empty id without an error, and for a created ENI that is left without any clean-up call |
| EniLifecycle.LeftBehindIff | pkg/awsutils/awsutils.go:547-584 | the exact condition on the answers under which a created ENI is left behind: a crash, a describe error, 21 failed detaches or 20 failed deletes |
| EniLifecycle.LimitIndexLeavesENI | pkg/awsutils/awsutils.go:526-533 | device index 128 makes the scan panic after creation |
| EniLifecycle.GoneENILosesError | pkg/awsutils/awsutils.go:573-580 | an attribute change that fails on an ENI that is no longer found yields an empty id and no error |
| Metrics.PublishedTelescopes | cni-metrics-helper/metrics/metrics.go:164-193 | over any series of polls the published changes add up to the latest total plus the totals lost at each restart |
| Metrics.PublishedIsLatestIff | cni-metrics-helper/metrics/metrics.go:164-193 | for non-negative totals the published changes add up to the latest total if and only if there was no reset |
| Metrics.HistogramTelescopes | cni-metrics-helper/metrics/metrics.go:195-250 | over any run of polls with a fixed layout what was published for a bucket adds up to its latest per-bucket count if and only if that count never went backwards |
| Metrics.BucketIsSeries | cni-metrics-helper/metrics/metrics.go:195-250 | each bucket behaves as a counter of its own per-bucket counts, the first poll included |
| Metrics.PerBucketTotal | cni-metrics-helper/metrics/metrics.go:205-213 | the de-cumulated buckets add up to the count at the largest bound |
| Metrics.PerBucketPrefix | cni-metrics-helper/metrics/metrics.go:205-213 | the de-cumulated buckets up to any bound add up to the cumulative count at that bound |
| Metrics.CumulativeTelescopes | cni-metrics-helper/metrics/metrics.go:195-250 | over any run of polls with a fixed layout and without a reset, what was published for the buckets up to a bound adds up to the cumulative count there in the latest poll that saw buckets |
| Metrics.ResetSeenIff | cni-metrics-helper/metrics/metrics.go:218-241 | a poll answers that something went backwards if and only if some bucket holds fewer observations than at the latest poll before |
| Metrics.MergeAt | cni-metrics-helper/metrics/metrics.go:132-162 | merging combines, bound by bound, exactly the samples at that bound, and never makes two buckets for one bound |
| Metrics.MergeFresh | cni-metrics-helper/metrics/metrics.go:132-162 | one sample merged into nothing is taken over as it is |
| Metrics.ProcessedTotals | cni-metrics-helper/metrics/metrics.go:243-247 | also when the current points become the last ones, those hold the per-bucket totals |
| Metrics.BucketPoints.ResetMetrics | cni-metrics-helper/metrics/metrics.go:378-390 | after a reset the current points share nothing with the last ones |
| Metrics.BucketPoints.ProcessHistogram | cni-metrics-helper/metrics/metrics.go:132-162 | the points hold the merged values, old points keep their place and new ones are fresh |
| Metrics.BucketPoints.ProcessBucket | cni-metrics-helper/metrics/metrics.go:205-241 | one bucket of the descending pass: it now holds its change, its last value the per-bucket count, all others as before |
| Metrics.BucketPoints.TakeDeltas | cni-metrics-helper/metrics/metrics.go:205-241 | the descending in-place pass turns cumulative counts into changes against the last poll; a reset is seen if and only if some bucket went backwards |
| Metrics.BucketPoints.PostProcess | cni-metrics-helper/metrics/metrics.go:199-248 | one action: a crash if and only if it has more buckets than last time; otherwise changes and totals as specified, with the points shared after the first poll only |
| Metrics.BucketPoints.Poll | cni-metrics-helper/metrics/metrics.go:252-291 | a poll of one target crashes if and only if it sees more buckets than last time, and otherwise publishes the changes of the merged samples and remembers their per-bucket counts |
| Metrics.MoreBucketsDoNotFit | cni-metrics-helper/metrics/metrics.go:216-220 | a histogram that has gained a bucket since the last poll indexes the last points out of range |
| Metrics.PostProcessingHistogram | cni-metrics-helper/metrics/metrics.go:195-250 | a crash if and only if some action has more buckets than last time; otherwise every action on its own, and the answer tells a reset or that no action had anything to compare to |
| Metrics.PostProcessingCounter | cni-metrics-helper/metrics/metrics.go:164-193 | every counter holds its change and remembers its total; the answer tells a reset or a first non-zero poll |
| Slices.SlicesDeepEqual | pkg/utils/utils.go:60-90 | for every symmetric and transitive comparison: true if and only if the lengths agree, every element of the first slice equals itself and the slices agree as multisets |
| Slices.SameCountsSuffice | pkg/utils/utils.go:60-90 | for an equivalence that is agreement as multisets alone |
| Slices.LengthFromCounts | pkg/utils/utils.go:64-66 | slices that agree as multisets have the same length, so the length test loses nothing |
| Slices.SameCountsIffSameMultiset | pkg/utils/utils.go:60-90 | for plain equality that is equality of multisets |

## Left out

- Transport: the AWS SDK, the metadata service, gRPC, Kubernetes informers and netlink are answers that may be anything.
- The text of `iptables -S` and its parsing: rules are abstract syntax, and a rule of another shape evaluates to an unknown verdict.
- The connmark, mangle, host-rule and reverse-path parts of the host set-up, and ENI route tables: straight-line calls.
- veth creation, MTU, sysctl writes and host veth names.
- Concurrency inside one manager pass: `Daemon` covers all interleavings for safety, while the exact outcome of shrinking, growing and reconciling is stated for a pass without interference.
- Pools and address records are values inside the store's maps: sharing of the pointers that GetENIInfos and GetENIIPPools hand out is not captured.
- GetStats: read here as one step, while the code reads the two counters without the lock.
- Restart: how recovered pods are keyed by container, and hence whether a later release finds them.
- KeptApart.AddThenDelApart: for an address that is still left half-way after the set-up, the rules del finds and leaves are those of `Leftovers` over the remains, which need not be the installed ones.
- Metrics.HistogramTelescopes: for a fixed bucket layout; for a layout that loses buckets the totals are compared by position, and several targets in one poll share points with the last values.
- Metrics: floating-point counts are real numbers.
- EC2's eventual consistency after a detach: a call that succeeds takes effect at once.
- Tagging of ENIs, attachment-limit metrics, and waiting for an ENI to appear.
- Prometheus gauges, logging, introspection, health probes, environment parsing, the instance-type limit tables.
- The CloudWatch publisher's batching and the discovery of pods through the Kubernetes API.
