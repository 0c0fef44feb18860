# Verified model of the datacenter dashboard's core logic

The dashboard sells datacenter capacity, shows who occupies which rack, decides which machines belong
to which customer, and guards every page with hierarchical permissions. This project models that
logic in Dafny and proves what it promises, for every input and every run.

* **Sellable capacity** (`Gate`, `Hosts`, `HostSellable`, `HostFigures`, `Panels`, `Engines`, `EngineLaws`,
  `EngineOutputs`, `Sales`, `StorageCaps`, `StorageOutputs`). Host figures pass a threshold and a utilisation
  gate, become packages of CPU, RAM and storage, and are summed over three tracks (allocation, maximum,
  average). The engines that compute the same thing in different ways are related to one another; the order of
  the tracks survives every override and both storage caps; sales come off the figures exactly.
* **Rack occupancy and allocation** (`Allocation`, `AllocationLaws`, `AllocationOutputs`, `Occupancy`,
  `OccupancyLaws`, `PhysicalRacks`, `OccupancyRules`, `SlotCount`). Duplicate rows of one physical rack are
  merged and aggregated by role and customer. The merge equals a direct count of occupied slots, ignores row
  order, and loses and repeats nothing.
* **Alias matching and the unmapped worklist** (`Text`, `AliasMatch`, `Unmapped`, `WorklistLaws`). One matching
  rule has an SQL form and an in-memory form; they agree. The page's one-click action strictly shrinks the list.
* **Permissions with a two-level cache** (`Permissions`, `PermissionCache`, `PermissionEffects`,
  `PermissionReads`, `PermissionRuns`, `Registry`, `CatalogRows`, `RegistryLoops`, `PermissionHistories`).
  Rights are inherited from the nearest ancestor and joined over roles; the cached maps are true over every run
  of several workers; the catalog is stored as a tree.
* **Weekly versions and licence shares** (`Calendar`, `CalVer`, `ReleaseLaws`, `Licences`).

`Prelude`, `Sorting`, `Grouping` and `Chains` hold shared helpers. Code that loops or updates state is a method,
or a class with fields, proved equal to a specification function; the laws are lemmas about those functions, and
tie them to the raw rows, hosts and panels.

Numbers that Python keeps as floats are exact reals; the tolerances 1e-6 and 1e-9 are constants. A
dictionary key that is absent differs from one that holds zero: `Host.Or` falls through on zero as
Python's `or` does, `Host.FirstOf3` and `FirstOf4` honour it. Lower-casing, upper-casing and white space
are parameters (`Text.Alphabet`) with the properties each law needs stated as hypotheses.

## Findings

Places where the code does not do what its comments or documentation suggest, each with a proved condition:

* shared/customer/match.py:55-68: a blank alias value turns into an SQL pattern that selects rows while the
  predicate accepts none (`AliasMatch.AgreementExactlyWhenNotBlank`).
* src/auth/registry.py:60-99: a catalog code that an operator added earlier is skipped by the
  synchronisation. The stored tree is still the catalog tree exactly when the operator's row already had the
  catalog's parent and type (`Registry.StoredTreeExactly`, `RegistryLoops.ClashCanMisplace`,
  `RegistryLoops.ClashCanBeInPlace`). It holds a loop exactly when such a row is reached again from itself
  (`RegistryLoops.SyncKeepsForestExactly`, `RegistryLoops.ClashCanTieALoop`).
* shared/colocation/occupancy.py:247-256: role_id is said never to be left to row order. Between roles 3 and 4
  it is, and once an operator gives them different flags the sellable totals depend on it
  (`OccupancyRules.SellableTotalsIgnoreOrderExactly`, `OccupancyRules.ColocationPairFlips`).
* shared/colocation/occupancy.py:195-207: the most restrictive role is said to win. It does under the default
  rules; under an operator's, exactly when they fit the precedence of the merge
  (`OccupancyRules.MostRestrictiveWinsExactly`).
* shared/colocation/role_rules.py:38-55: a rule that marks the blank role unsellable makes the role
  breakdown disagree with the totals (`AllocationLaws.FlagsMatchExactlyWhenBlankRoleOpen`). Rules read from
  the table never hold one (role_rules.py:71-90).
* shared/sellable/computation.py:268, 288-294: `apply_storage_ratio_cap` says it never increases values; it
  raises the constrained figure when the shown minimum is above it (`StorageCaps.CapRaisesExactly`,
  `StorageCaps.CapCanRaise`).
* shared/sellable/host_sellable.py:272-295: pulling storage out of the coupling lowers a host's packages to
  zero when neither CPU nor RAM limits it and its storage has room
  (`HostSellable.MergedBelowSeparateExactly`, `HostSellable.PullingStorageOutCanLower`).
* shared/sellable/host_sellable.py:29-47: a resource with nothing left is said to pull the count to zero. CPU does
  not where a host has no CPU figures at all, and the CPU panel then shows CPU that is not there
  (`EngineOutputs.NoCpuWithinExactly`, `EngineOutputs.CpuCanPassHeadroom`).
* shared/sellable/host_sellable.py:144-146, shared/sellable/computation.py:526-531: the triple engine counts
  nothing on a host whose allocation is unknown, the pair engine counts what its figures leave
  (`EngineLaws.EnginesAgree`, `EngineLaws.UnknownHostDivides`).

## Model

| member | source | states |
|---|---|---|
| Gate.HeadroomBounds | shared/sellable/computation.py:53-90 | gated headroom is never negative, and taking all of it lands exactly on the threshold share of the total |
| Gate.RoomMeansHeadroom | shared/sellable/computation.py:53-90 | headroom is positive if and only if total and threshold are positive, the threshold share is not used up and the utilisation is within the gate |
| Gate.HeadroomAfterSale | shared/sellable/computation.py:53-90 | a quantity sold out of the headroom lowers it by exactly that quantity; the gate never trips on the way |
| Hosts.HostEffectiveUnits | shared/sellable/computation.py:480-576 | the accumulation loop over hosts, all track branches, is the sum over hosts of the lesser of CPU and RAM packages, 0 for a non-positive package size |
| Hosts.PairMaxBelowAvg | shared/sellable/computation.py:507-574 | on one host the average track offers at least what the maximum track offers, and neither is negative |
| Hosts.SumMaxBelowAvg | shared/sellable/computation.py:480-576 | the same order for any list of hosts, ratio and thresholds |
| HostSellable.HostStorageFreeGb | shared/sellable/host_sellable.py:60-73 | own, shared and no-mount fallback cases of free storage |
| HostSellable.UnitLimitsLoop | shared/sellable/host_sellable.py:29-47 | the limits list and its minimum give the least of the limits that apply, 0 when none does |
| HostSellable.UnitLimitsMono | shared/sellable/host_sellable.py:29-47 | more CPU, RAM or storage never makes for fewer packages |
| HostSellable.UnitLimitsTight | shared/sellable/host_sellable.py:29-47 | the package count fits under each limiting resource and is met by one of them |
| HostSellable.MeasureStorage | shared/sellable/host_sellable.py:257-270 | provisioned space is capped at capacity, and zero free space falls back to the gated figure |
| HostSellable.ComputeHostSellableUnits | shared/sellable/host_sellable.py:225-333 | the whole record of one host (packages, amounts, waste, price) from what it offers on a pair of tracks |
| HostSellable.HostMaxBelowAvg | shared/sellable/host_sellable.py:103-208 | with storage coupled in or not, the average track never offers fewer packages than the maximum track |
| HostSellable.StorageOpenExactly | shared/sellable/host_sellable.py:259-267 | coupled storage offers something if and only if its provisioning and utilisation leave room; having no free space does not close it |
| HostSellable.MergedBelowSeparateExactly | shared/sellable/host_sellable.py:272-295 | pulling storage out of the minimum never lowers a host's packages if and only if CPU or RAM limits it or its storage figures leave no room |
| HostSellable.PullingStorageOutCanLower | shared/sellable/host_sellable.py:272-295 | a storage node that counts five packages with its storage coupled in and none with it pulled out |
| HostSellable.WasteAccountsForRaw | shared/sellable/host_sellable.py:285-305 | with own or shared storage, each limiting resource equals what the packages take plus the waste, the shared storage by its own count, and at least one wastes nothing |
| HostFigures.ZeroPeakFallsThrough | shared/sellable/computation.py:448-457 | a peak figure of zero falls through to the next key, an average of zero is kept as a figure |
| HostFigures.MountsAddUp | shared/sellable/host_sellable.py:60-73 | shared mounts with a known figure add up wherever they stand, others add nothing |
| HostFigures.FreeExactly | shared/sellable/host_sellable.py:60-73 | free space is the host's own, with the shared mounts if asked, or what is unused where no mounts are known; never negative |
| HostFigures.StorageToSellExactly | shared/sellable/host_sellable.py:259-270 | with a capacity, sellable storage is the lesser of the gated figure and the free space, the latter only where there is some; without one, the free space |
| HostFigures.PricedExactly | shared/sellable/host_sellable.py:306-333 | a host's packages are worth the unit price each at both ends of the range, nothing without a price |
| HostFigures.UnknownAllocationCloses | shared/sellable/host_sellable.py:130-208 | machines without an allocation on record close the allocation tracks and no other |
| Panels.ConstrainByRatio | shared/sellable/computation.py:102-175 | every panel out, decoupled storage and unknown kinds included, follows from one pooled package count |
| Panels.PooledUnitsAreLargest | shared/sellable/computation.py:102-175 | with one panel a kind the pooled count fits under every coupled panel, and any count that fits is no larger |
| Panels.ConstrainedUnderRaw | shared/sellable/computation.py:149-174 | the constrained panels are one multiple of the ratio and stay under their raw figures |
| Panels.PerHostNeverExceedsPooled | shared/sellable/computation.py:480-576 | fragmentation: the per-host sum never exceeds the pooled answer on the summed per-host headrooms |
| Engines.ConstrainPerHostDual | shared/sellable/computation.py:579-682 | every panel of the pair engine, from five per-host sums |
| Engines.PairEngineOrdersTracks | shared/sellable/computation.py:579-682 | for any hosts, ratio and thresholds, CPU and RAM panels show the maximum track no higher than the average one |
| Engines.Accumulate | shared/sellable/computation.py:737-765 | the accumulator returns one result a host, in order, under the override decided for that host, and their package sum |
| Engines.ConstrainPerHostTripleDual | shared/sellable/computation.py:685-909 | every panel of the triple engine, with the empty-host fallback, cluster pool and IBM range branches |
| Engines.TripleEngineOrdersTracks | shared/sellable/computation.py:685-909 | for any hosts, thresholds, per-host coupling, cluster pool and IBM range, CPU, RAM and storage panels show the maximum track no higher than the average one |
| Engines.TripleTracksCoupled | shared/sellable/computation.py:767-843 | on each track one package count gives CPU, RAM and storage: storage from the hosts is exactly what the packages take, storage from a cluster pool or IBM range no more than that and no more than the pool |
| EngineLaws.HostEnginesAgree | shared/sellable/host_sellable.py:130-208 | with aligned keys and storage out, one host has the same packages in both engines, or 0 on the allocation track when its allocation is unknown |
| EngineLaws.EnginesAgree | shared/sellable/computation.py:719-765 | over any aligned hosts the two engines' sums are equal on the maximum and average tracks; on the allocation track they are equal if and only if no host of unknown allocation has room by its recorded CPU and RAM figures |
| EngineLaws.UnknownHostDivides | shared/sellable/host_sellable.py:144-146 | a host with a machine and no recorded allocation, on which the pair engine counts eight packages and the triple engine none |
| EngineLaws.CpuPanelsAgree | shared/sellable/computation.py:854-870 | so both engines fill in a CPU panel identically, field by field |
| EngineLaws.CouplingOrdersTotals | shared/sellable/computation.py:719-765 | whatever is decided host by host, the merged total is no higher and the separate total no lower |
| EngineOutputs.HeadlineIsAllocation | shared/sellable/computation.py:854-908 | every CPU, RAM and storage panel of the triple engine shows its allocation track as headline, repeated in the older fields; it is marked bound exactly when it shows visibly less than the raw figures, and its other fields stay |
| EngineOutputs.OneCountBehindPanels | shared/sellable/computation.py:737-843 | on each track one sum of packages over the hosts is behind CPU, RAM and storage alike; storage is what those packages take, from a cluster's pool no more than it holds, and an IBM range changes none of it |
| EngineOutputs.HostsAddUp | shared/sellable/computation.py:737-765 | the packages of two groups of hosts add up, so hosts lend each other nothing |
| EngineOutputs.OneHostFillsUp | shared/sellable/host_sellable.py:225-295 | on a host with CPU and RAM the packages fit its CPU, its RAM and the storage that counts, and use one of them up |
| EngineOutputs.DefaultCoupling | shared/sellable/computation.py:756-760 | with nothing forced, storage counts on exactly the hosts that own it, and on none beside a cluster pool |
| EngineOutputs.CpuWithinHeadroom | shared/sellable/computation.py:854-870 | where every host has CPU figures, no CPU track passes the hosts' summed headroom, nor the headline that of the allocation track |
| EngineOutputs.RamWithinHeadroom | shared/sellable/computation.py:871-890 | the same of RAM |
| EngineOutputs.NoCpuWithinExactly | shared/sellable/host_sellable.py:29-47 | a host without CPU figures stays within its CPU headroom, which is none, if and only if packages take no CPU or nothing else that limits the host leaves room |
| EngineOutputs.CpuCanPassHeadroom | shared/sellable/host_sellable.py:29-47 | a host with RAM figures only is shown with 60 units of CPU it does not have |
| EngineOutputs.LargestIsLargest | shared/sellable/host_sellable.py:346-350 | the largest host figure behind the upper end of the range is one host's, and no host's is larger |
| EngineOutputs.PoolsAddUp | shared/sellable/host_sellable.py:346-351 | free space of pools adds up, an unknown figure counting as none |
| EngineOutputs.StorageRangeShown | shared/sellable/computation.py:767-843 | the storage range: an IBM range as given; from a cluster's pool the headline and what the maximum track could take; from the hosts' own storage the headline and the largest host within the pools, yet no less than all packages; the upper end only when visibly above the lower |
| EngineOutputs.PairHeadlineIsAllocation | shared/sellable/computation.py:639-681 | CPU and RAM panels of the pair engine show their allocation track as headline, any other panel its raw figure |
| EngineOutputs.PairPanelsShowCounts | shared/sellable/computation.py:589-681 | each track of a CPU or RAM panel of the pair engine is what its packages take, RAM's allocation track counted in physical cores |
| EngineOutputs.PairHostsAddUp | shared/sellable/computation.py:480-576 | the pair engine's packages of two groups of hosts add up |
| EngineOutputs.PairOneHostFillsUp | shared/sellable/computation.py:507-576 | on one host the pair engine's packages fit CPU and RAM and use one of them up, at the given clock or, for RAM's allocation track, the host's own |
| EngineOutputs.PairCountWithinCpu | shared/sellable/computation.py:480-576 | no more packages are counted than the hosts' summed CPU headroom of the track holds, at the size of a package in GHz |
| EngineOutputs.PairRamWithinHeadroom | shared/sellable/computation.py:659-681 | no RAM figure of the pair engine, headline included, passes the hosts' summed RAM headroom of its track |
| Sales.SaleComesOffExactly | shared/sellable/computation.py:480-576 | selling k of the n packages left on a host leaves exactly n - k on the allocation track |
| Sales.SaleStaysWithinExactly | shared/sellable/computation.py:53-90 | a sale keeps CPU and RAM within their thresholds if and only if it sells no more than the packages left |
| Sales.SoldPlusLeftIsConstant | shared/sellable/computation.py:480-576 | over any run of sales on any hosts, sold plus left is constant |
| Sales.NoHostPassesItsCeiling | shared/sellable/computation.py:53-90 | no run of sales takes a host past its threshold share |
| StorageCaps.ApplyStorageRatioCap | shared/sellable/computation.py:264-320 | every storage panel is capped by the bottleneck's packages, with reason, bottleneck and ratio flags; other panels are untouched |
| StorageCaps.CapTwice | shared/sellable/computation.py:264-320 | applying the cap again changes no field of any panel |
| StorageCaps.CapLowersRange | shared/sellable/computation.py:284-306 | neither end of the shown range rises, their order is kept, and the constrained figure stays under the cap |
| StorageCaps.CapRaisesExactly | shared/sellable/computation.py:284-294 | the constrained figure rises if and only if both ends are shown and the minimum and the cap are above it |
| StorageCaps.CapCanRaise | shared/sellable/computation.py:264-268 | a panel whose constrained figure the cap raises |
| StorageOutputs.CapExactly | shared/sellable/computation.py:242-320 | the cap is the storage of the most packages that fit the constrained CPU and RAM figures, nothing where neither takes part; every storage panel is cut to it and, when something visible falls, reports those packages and a kind they use up, CPU first; other panels stay |
| StorageOutputs.NoMoreFit | shared/sellable/computation.py:242-261 | no larger number of packages fits, so the number reported is the one that fits and uses something up |
| StorageOutputs.CapStaysWithin | shared/sellable/computation.py:264-320 | after the cap each storage panel's headline, minimum and maximum times the CPU size is at most the CPU figure, 0 if negative, times the storage size; so for RAM; none is above zero where neither takes part |
| StorageOutputs.NoStorageNoCap | shared/sellable/computation.py:270-274 | a storage size that is not positive leaves all panels as they were |
| StorageCaps.ApplyStorageDualTrackRatioCaps | shared/sellable/computation.py:339-414 | the three storage tracks are the CPU and RAM packages of the track times the ratio, within the pool, with all early returns |
| StorageCaps.TracksTwice | shared/sellable/computation.py:339-414 | projecting the tracks again changes no field of any panel |
| StorageCaps.TrackOrderCarries | shared/sellable/computation.py:323-383 | an order of any two tracks on CPU and RAM carries over to storage |
| StorageCaps.TracksWithinPool | shared/sellable/computation.py:361-383 | each storage track lies between 0 and the pool's raw figure |
| StorageOutputs.TracksExactly | shared/sellable/computation.py:339-414 | where CPU or RAM show any track, every storage panel shows on each track the storage of the most packages they show on it, within the pool, and nothing where they show none; all else stays |
| StorageCaps.ProjectedTracksOrdered | shared/sellable/computation.py:339-414 | after any engine that leaves CPU and RAM tracks in order, projected storage tracks are in order and within the pool |
| StorageCaps.StorageFollowsEngine | services/customer-api/app/services/sellable_service.py:2642-2826 | storage panels kept out of the triple engine, put back with any figures, capped and projected show on each track what the engine's packages take, within the pool, the maximum track no higher than the average one |
| Allocation.FromRows | shared/colocation/role_rules.py:71-90 | rules are the non-blank rows, later ones winning, or the defaults when there are none; none is about the blank role |
| AllocationOutputs.RulesExactly | shared/colocation/role_rules.py:71-90 | a role has a rule if and only if a row names it, blanks aside, and the last such row gives the flag |
| Allocation.NoNameIsSentinel | shared/colocation/allocation.py:237-279 | no normalised customer name equals the Unattributed sentinel |
| Allocation.SentinelMeansUnresolved | shared/colocation/allocation.py:252-279 | a rack carries the sentinel if and only if tenant, tags and description name nobody |
| AllocationOutputs.CustomerExactly | shared/colocation/allocation.py:206-279 | the tenant names the customer, failing that the tags, failing that the description, all trimmed, failing all the sentinel |
| AllocationOutputs.TagCustomerExactly | shared/colocation/allocation.py:182-203 | the first tag that ends in CO LOCATION, in any case and spacing, with something before it gives that as the name; no such tag, no name |
| AllocationOutputs.NamesGroup | shared/colocation/allocation.py:237-249 | two words go by their upper-cased forms with one blank between, however they are spaced |
| Allocation.SellableRackTotals | shared/colocation/allocation.py:130-153 | the loop sums capacity and use over exactly the sellable racks |
| Allocation.AggregateRackAllocations | shared/colocation/allocation.py:282-404 | the single pass with running totals and buckets equals separate sums by role, customer and sellability, sorted |
| AllocationLaws.RoleBreakdownConserves | shared/colocation/allocation.py:340-353 | the role breakdown's racks, capacity, used and free units add up to those of all rows |
| AllocationLaws.FlagsMatchExactlyWhenBlankRoleOpen | shared/colocation/allocation.py:340-404 | buckets flagged sellable add up to the sellable totals for every list of racks if and only if the rules leave the blank role sellable |
| AllocationLaws.BlankRuleMiscounts | shared/colocation/role_rules.py:38-55 | otherwise two racks, one of absent and one of blank role, are miscounted |
| AllocationLaws.CustomersConserveColocation | shared/colocation/allocation.py:364-384 | customer allocations, the unattributed one included, add up to the colocation total |
| AllocationLaws.CustomersAreHolders | shared/colocation/allocation.py:364-404 | the sorted customer list holds exactly the entries of those that hold a colocation rack, each once |
| AllocationOutputs.TotalsExactly | shared/colocation/allocation.py:355-367 | sellable, network and colocation totals are summed over exactly the racks that may be sold, the closed network racks and the racks of roles 3 and 4 |
| AllocationOutputs.BucketsExactly | shared/colocation/allocation.py:340-353 | one bucket for each role that occurs, counting the racks, capacity, use and free space of exactly its racks |
| AllocationOutputs.FlagOfFirst | shared/colocation/allocation.py:340-353 | a bucket's flag is that of the first rack of its role |
| AllocationOutputs.BreakdownSorted | shared/colocation/allocation.py:386-404 | sellable roles first, then by free space, then by role |
| AllocationOutputs.EntriesExactly | shared/colocation/allocation.py:364-384 | one entry for each holder of a colocation rack, counting exactly the racks it holds and naming each of them once |
| AllocationOutputs.CustomersSorted | shared/colocation/allocation.py:386-389 | larger allocations first, then by name |
| Occupancy.DedupePhysicalRacks | shared/colocation/occupancy.py:222-296 | the dictionary and merge loops yield one rack for each name and site, in first-seen order, each the merge of its rows |
| PhysicalRacks.OneRackAPlace | shared/colocation/occupancy.py:257-264 | no two merged racks have name and site in common, an absent site counting as blank, and the place of every row is among them |
| PhysicalRacks.EachRackCombinesItsPlace | shared/colocation/occupancy.py:264-296 | each merged rack combines exactly the rows with its name and site: the greatest capacity and use, all their tenants, and the label most of them carry, first by name on a tie |
| Occupancy.MergeGroup | shared/colocation/occupancy.py:264-293 | one group's loop: greatest capacity and use, free space from them, united tenants, voted label, resolved role and identity |
| Occupancy.MostVoted | shared/colocation/occupancy.py:279-288 | the label chosen has the most votes, the first by name among equals |
| Occupancy.ResolveColocationIdentity | shared/colocation/occupancy.py:127-184 | an agreed customer keeps the first duplicate's identity, a disagreement blanks it |
| Occupancy.ResolveNonColocationRole | shared/colocation/occupancy.py:187-219 | without colocation duplicates the network role wins, else the smallest role |
| OccupancyRules.SellableExactlyWhenAllAre | shared/colocation/role_rules.py:24-55 | under the default rules a merged rack is sellable if and only if every duplicate is |
| OccupancyRules.MostRestrictiveWinsExactly | shared/colocation/occupancy.py:187-219 | under given rules a merged rack is sellable exactly when every duplicate is, for all groups, if and only if the rules fit the precedence of the merge |
| OccupancyLaws.CustomerNamedOnlyByAll | shared/colocation/occupancy.py:127-184 | a merged rack goes to a named customer if and only if it has colocation duplicates and all resolve to that customer; any other colocation rack is unattributed |
| OccupancyLaws.AllotmentFollowsDuplicates | shared/colocation/allocation.py:364-384 | through merge and aggregation, the customer list has one entry for each customer, Unattributed included, that some rack belongs to, and allots it exactly those racks' capacity; a rack belongs to the customer all its colocation duplicates name, else to Unattributed |
| OccupancyLaws.MergeIgnoresOrder | shared/colocation/occupancy.py:264-293 | capacity, used, free, label and holder of a merged rack do not depend on row order; nor does sellability under rules that treat roles 3 and 4 alike and leave the blank role open |
| OccupancyLaws.DedupeIgnoresOrder | shared/colocation/occupancy.py:222-296 | shuffled rows give the same physical racks with the same figures, sellability included under such rules |
| OccupancyRules.SellableTotalsIgnoreOrderExactly | shared/colocation/occupancy.py:247-256 | the sellable capacity, used and free totals of all row lists are free of row order if and only if the rules treat roles 3 and 4 alike and leave the blank role open |
| OccupancyRules.ColocationPairFlips | shared/colocation/occupancy.py:127-184 | two rows of one rack, roles 3 and 4, whose sellable total is that of the first row's role |
| OccupancyLaws.DedupeTwice | shared/colocation/occupancy.py:222-296 | merging merged racks changes nothing, in content or order |
| SlotCount.MergedUseIsDirectCount | shared/colocation/occupancy.py:42-98 | the maximum over duplicate query rows is the number of distinct occupied slots within the greatest capacity, and used plus free is the capacity |
| SlotCount.ClassifySlots | shared/colocation/occupancy.py:475-506 | the counters are the numbers of slots whose best tenant is external, internal or absent, and the external names |
| SlotCount.BestIsHighestRank | shared/colocation/occupancy.py:475-506 | each slot has the rank of the highest-ranking tenant listed for it |
| SlotCount.ClassesPartitionSlots | shared/colocation/occupancy.py:475-506 | every slot falls in exactly one class |
| SlotCount.OneSlotExactly | shared/colocation/occupancy.py:475-506 | two rows tell of one slot if and only if name, site and unit agree, an absent site counting as blank |
| SlotCount.ClassesExactly | shared/colocation/occupancy.py:475-506 | a slot is external where any tenant found in it is, else internal where any is, else untagged; external customers are counted by distinct trimmed names |
| SlotCount.SlotsFilled | shared/colocation/occupancy.py:43-51 | a device fills its height from its position up, one unit where the height is unknown, zero or negative |
| SlotCount.MountedExactly | shared/colocation/occupancy.py:54-55 | counted are placed devices whose face is the front, blank or not given |
| SlotCount.BreakdownAddsUp | shared/colocation/occupancy.py:435-506 | without a filter, external, internal and untagged units add up to the used units of the merged racks |
| AliasMatch.EscapeIsOnePass | shared/customer/match.py:45-52 | three successive replacements equal escaping each character once |
| AliasMatch.UnescapeEscape | shared/customer/match.py:45-52 | unescaping an escaped value gives the value back |
| AliasMatch.PatternsAreWellFormed | shared/customer/match.py:55-68 | no pattern ends in a dangling escape, before or after case folding |
| AliasMatch.PatternAgreesWithPredicate | shared/customer/match.py:55-94 | for every method, non-blank value and name, the SQL pattern selects the name if and only if the predicate accepts it; a tenant-id rule selects no name |
| AliasMatch.AgreementExactlyWhenNotBlank | shared/customer/match.py:55-94 | the two agree on every name if and only if the rule goes by tenant id or its value is not blank |
| AliasMatch.NormalizedMethodIsAllowed | shared/customer/match.py:28-42 | a normalised method is allowed for its source, and normalising again changes nothing |
| WorklistLaws.NormalizedExactly | shared/customer/match.py:28-42 | the method a source gets: the id method for a tenant-id source, else the trimmed and folded method if it is a text method, else contains |
| WorklistLaws.AcceptsExactly | shared/customer/match.py:71-94 | prefix, suffix, exact and contains accept exactly the folded names put together from the folded value and a rest on the right side |
| Unmapped.GuessOwnerKey | shared/customer/unmapped_classifier.py:82-116 | exact prefix hit first, else the longest qualifying key, always a known account |
| Unmapped.LongestKeyIsBest | shared/customer/unmapped_classifier.py:104-116 | the running best is a qualifying key no other qualifying key is longer than, and empty only when none qualifies |
| WorklistLaws.GuessExactly | shared/customer/unmapped_classifier.py:82-116 | the guess is the loose key of the part before the first dash if it is an account, else the first of the longest account keys that fit, else nobody |
| WorklistLaws.NormConcat | shared/customer/unmapped_classifier.py:43-48 | a loose key is read off character by character |
| WorklistLaws.TurkishLetters | shared/customer/unmapped_classifier.py:32-48 | Turkish letters of both cases become their plain counterparts in a loose key |
| Unmapped.OwnerMatchersFromMappings | shared/customer/unmapped_classifier.py:146-178 | matchers are those of the allowed, non-blank rows of the page's sources, then one contains-matcher a display name |
| WorklistLaws.RulesOwnExactly | shared/customer/unmapped_classifier.py:146-178 | the rules own exactly the names that some row for one of the sources, with a value and a method its source takes, accepts |
| WorklistLaws.NamesOwnExactly | shared/customer/unmapped_classifier.py:174-178 | display names own exactly the names they occur in |
| Unmapped.ClassifyUnmapped | shared/customer/unmapped_classifier.py:270-299 | one row for each named, non-system, unowned machine, gap or orphan |
| Unmapped.ClassifyUnmappedPolicies | shared/customer/unmapped_classifier.py:302-365 | one row for each unowned policy: a single candidate is a gap, several are ambiguous, none is an orphan |
| WorklistLaws.VmRowsExactly | shared/customer/unmapped_classifier.py:270-299 | a machine has its row, as often as it is listed, if and only if it is visible and claimed by no rule of the machine sources and no display name; the row tells the guess and offers the part before the first dash |
| WorklistLaws.PolicyRowsExactly | shared/customer/unmapped_classifier.py:302-365 | a policy has its row, as often as it is listed, if and only if its trimmed name says something and no rule of a backup source claims it; one candidate is a gap, several are ambiguous |
| Unmapped.TokenIsPrefix | shared/customer/backup_policy.py:101-129 | the token a policy is guessed by is a prefix of its lower-cased name |
| WorklistLaws.PolicyGuessExactly | shared/customer/backup_policy.py:101-129 | the guess goes by the first two dash-separated segments if the index lists anyone for them, otherwise by the first, whole segments only |
| Unmapped.ClickRemovesExactlyTheClaimed | src/pages/unmapped_resources_callbacks.py:76-120 | writing the suggested rule removes exactly the rows of its kind whose name starts with the suggestion; all others stay as and where they were |
| WorklistLaws.RuleAssignsToGuess | src/pages/unmapped_resources_callbacks.py:85-100 | the rule written assigns the names that begin with the suggestion to the owner guessed for the row |
| Unmapped.ClickMakesProgress | shared/customer/unmapped_classifier.py:119-132 | the clicked row itself disappears, no row is added, and fewer rows remain to act on |
| Unmapped.MergeSourceMapping | src/utils/crm_source_mapping_ui.py:535-548 | the rule is appended, and a write asked for, if and only if no existing rule has its source, method and folded value |
| Unmapped.OfferedRuleIsNew | src/utils/crm_source_mapping_ui.py:521-548 | no stored rule with a trimmed source equals the one suggested for a row still shown, so the action on it always writes |
| Unmapped.ClicksTerminate | src/pages/unmapped_resources_callbacks.py:76-120 | any run of clicks is no longer than the number of actionable rows at its start |
| Permissions.AncestorsLoop | src/auth/permission_service.py:217-227 | on an acyclic table the loop ends and lists the node and its ancestors |
| Permissions.AncestorsArePath | src/auth/permission_service.py:217-227 | the list starts at the node, steps from child to parent and ends at a root |
| Permissions.EffectiveTripletForRole | src/auth/permission_service.py:240-249 | the loop returns the first row along the ancestors, none when there is no row |
| Permissions.RightsComeFromNearestRow | src/auth/permission_service.py:240-249 | a role's rights are those of its nearest ancestor-or-self with a row, else none |
| Permissions.EffectiveTriplet | src/auth/permission_service.py:252-265 | rights are joined by OR over direct and team roles; everything when sign-in is disabled, nothing for an unknown code |
| Permissions.RightsExactly | src/auth/permission_service.py:189-265 | a user has a right on a code if and only if some role has it there by its nearest row, and a row of the user's own or of a team they belong to gives that role |
| Permissions.JoiningATeamGivesItsRights | src/auth/permission_service.py:189-265 | joining a team with such a role gives the right |
| Permissions.AddingRoleKeepsRights | src/auth/permission_service.py:189-265 | adding a role to a user, a role to a team or a member to a team never removes a right from anyone |
| Permissions.UpsertActsOnItsSubtree | src/auth/settings_crud.py:50-71 | upserting a row gives the role the new rights exactly on the nodes below it with no nearer row, and leaves other roles alone |
| Permissions.UpsertTouchesOnlyHolders | src/auth/settings_crud.py:50-96 | only holders of the role see a change, and only on those nodes |
| PermissionCache.Worker.UserEffectiveMap | src/auth/permission_service.py:280-328 | local entry within its time to live, else the shared copy, else a fresh map stored in both |
| PermissionCache.Worker.ClearUserCache | src/auth/permission_service.py:54-71 | drops one user, or everyone, from the own and the shared cache |
| PermissionCache.Worker.SetRolePermission | src/auth/settings_crud.py:50-71 | new tables and both caches after the call |
| PermissionCache.Worker.BulkSetRoleMatrix | src/auth/settings_crud.py:74-96 | all cells upserted in order, then every cached map dropped once |
| PermissionCache.Worker.SetUserRoles | src/auth/settings_crud.py:112-119 | the user's role rows replaced, its cached map dropped |
| PermissionCache.Worker.SetUserActive | src/auth/settings_crud.py:122-124 | the account flag set, its cached map dropped |
| PermissionCache.Worker.CreateTeam | src/auth/settings_crud.py:296-315 | team and role rows added, no cached map dropped |
| PermissionCache.Worker.UpdateTeamMeta | src/auth/settings_crud.py:318-338 | team roles replaced, exactly the members' cached maps dropped |
| PermissionCache.Worker.InsertDynamicPermission | src/auth/settings_crud.py:354-376 | a new leaf under a known parent, nothing for a known code, every cached map dropped |
| PermissionCache.Worker.ImportLdapUsers | src/auth/settings_crud.py:394-453 | each user's roles and teams replaced and its cached map dropped |
| PermissionCache.Worker.SetUserTeams | src/auth/settings_crud.py:506-513 | the user's memberships replaced, its cached map dropped |
| PermissionCache.Worker.AddTeamMembers | src/auth/settings_crud.py:533-539 | memberships added, each new member's cached map dropped |
| PermissionCache.Worker.RemoveTeamMember | src/auth/settings_crud.py:542-547 | one membership removed, that user's cached map dropped |
| PermissionCache.Worker.DeleteRoleNonSystem | src/auth/settings_crud.py:563-570 | a system or unknown role is refused; otherwise all its rows go and every cached map is dropped |
| PermissionCache.Worker.LoginThroughLdap | src/auth/routes.py:37-61 | group roles are added either way; the session and the clear depend on the account being enabled |
| PermissionCache.ChangeKeepsValid | src/auth/settings_crud.py:354-376 | every call keeps references intact and the parent graph acyclic |
| PermissionCache.ChangeClearsEnough | src/auth/settings_crud.py:50-570 | a call changes the effective map only of users whose cached maps it drops, but for the directory login of a disabled account |
| PermissionEffects.GrantReadsBack | src/auth/settings_crud.py:50-71 | the rights saved are read back from the node; every other grant and table stays |
| PermissionEffects.MatrixReadsBack | src/auth/settings_crud.py:74-96 | each node of a saved matrix holds the last rights listed for it, other grants and tables stay |
| PermissionEffects.UserRolesAreThoseListed | src/auth/settings_crud.py:112-119 | the user's role rows are exactly those listed, other users' stay, and the user holds those and the roles of their teams |
| PermissionEffects.TeamRolesAreThoseListed | src/auth/settings_crud.py:318-338 | the team's role rows are exactly those listed and its members hold them; without a list nothing changes |
| PermissionEffects.NewTeamHasItsRoles | src/auth/settings_crud.py:296-315 | a new team has exactly the roles listed and no members |
| PermissionEffects.AccountFlagSet | src/auth/settings_crud.py:122-124 | only the account's own flag changes |
| PermissionEffects.NewAccountHasNoRole | src/auth/settings_crud.py:99-109 | a new local account is enabled and holds no role |
| PermissionEffects.MembershipsAreThoseListed | src/auth/settings_crud.py:506-513 | the user's memberships are exactly those listed, other users' stay, and the roles held are the direct ones and those of the listed teams |
| PermissionEffects.AddedMembersJoin | src/auth/settings_crud.py:533-539 | exactly the listed users join, and hold the team's roles |
| PermissionEffects.RemovedMemberKeepsOtherRoles | src/auth/settings_crud.py:542-547 | exactly one membership row goes; the user then holds a role if and only if a row of their own or another of their teams gives it; nobody else's roles change |
| PermissionEffects.ImportedUsersHaveTheirRoles | src/auth/settings_crud.py:394-453 | each imported user has an account and exactly the listed roles and teams, nobody else changes |
| PermissionEffects.DirectoryLoginAddsRoles | src/auth/ldap_service.py:295-328 | a directory login adds the roles of its groups and takes none away |
| PermissionEffects.DeletedRoleIsGone | src/auth/settings_crud.py:563-570 | a role that is not a system role goes with every row that names it, and nothing else goes |
| PermissionEffects.NewPermissionHangsUnderItsParent | src/auth/settings_crud.py:354-376 | a code not yet known gets one new row, under the row of its parent code if that is known; a known code gets none |
| PermissionEffects.NamesAndSessionsChangeNoRights | src/auth/service.py:35-56 | names, profiles and sessions touch no table that rights depend on |
| PermissionEffects.OthersKeepTheirMaps | src/auth/settings_crud.py:50-570 | a call drops the cached maps of nobody it is not about |
| PermissionReads.ClearedExactly | src/auth/permission_service.py:54-71 | a clear drops exactly the entries of the users it is about |
| PermissionReads.ReadFillsCaches | src/auth/permission_service.py:280-328 | a read leaves others' entries alone, keeps what it answered, and answers from the worker's own fresh entry, else the shared copy, else the tables |
| PermissionReads.ReadTwice | src/auth/permission_service.py:291-299 | a second read before the entry is too old gives the same answer and changes nothing, whatever has happened to tables and shared cache |
| PermissionReads.MapListsEveryCode | src/auth/permission_service.py:308-316 | the map lists every code there is and no other, with the user's rights on it |
| PermissionRuns.SharedCopyAlwaysFresh | src/auth/permission_service.py:280-328 | over every run of several workers, every shared copy equals the freshly computed map, and belongs to an enabled account |
| PermissionRuns.LocalEntryWasTrue | src/auth/permission_service.py:295-303 | a worker's own entry is the true map of the instant it was stored |
| PermissionRuns.AnswerWasTrueRecently | src/auth/permission_service.py:280-328 | every map returned was the user's true map at some instant of the run less than the time to live ago |
| PermissionRuns.DisabledLoginMeetsNoCopy | src/auth/routes.py:37-61 | a directory login that finds the account disabled drops no cached map, and at no point of any run is there a shared copy it could make stale |
| Registry.FlattenNodes | src/auth/registry.py:15-36 | the recursive walk lists every catalog node, parents first |
| CatalogRows.CatalogRowsExactly | src/auth/registry.py:15-36 | the rows are those of the nodes at all places of the catalog, however deep, each under the node one step up; there are as many as there are nodes |
| Registry.DepthLoop | src/auth/registry.py:47-53 | on a catalog the loop ends with the number of ancestors |
| Registry.SortByDepth | src/auth/registry.py:44-55 | rows keyed by depth and sorted by depth, then code |
| Registry.ParentComesEarlier | src/auth/registry.py:44-55 | in that order every non-root row comes after its parent's |
| Registry.SyncPermissionsFromCatalog | src/auth/registry.py:39-101 | the whole synchronisation as one fold of upserts over the ordered rows |
| Registry.SyncedIsMixed | src/auth/registry.py:60-99 | whatever codes clash: operators' rows and rows outside the catalog stay as they are, every other catalog row hangs under the row of its catalog parent, ids keep their codes |
| Registry.StoredTreeIsCatalogTree | src/auth/registry.py:39-101 | with disjoint codes every catalog code ends with a row under the row of its catalog parent; other rows and all ids are kept |
| Registry.StoredTreeExactly | src/auth/registry.py:60-99 | every catalog code ends under its catalog parent with its catalog type if and only if every operator's row with a catalog code had that parent and type before the call |
| Registry.OwnRowsExactlyWithoutClash | src/auth/registry.py:74-83 | every catalog code ends as a row of the catalog's own, linked and not marked as an operator's, if and only if no operator's row carries a catalog code |
| RegistryLoops.SyncKeepsForestExactly | src/auth/registry.py:39-101 | no row is left under a missing parent, and the parent graph stays acyclic if and only if no operator's row with a catalog code is reached again from itself, by the parents stored before the call up to a catalog row and catalog parents up to the next such row |
| RegistryLoops.SyncKeepsForest | src/auth/registry.py:39-101 | with disjoint codes a synchronisation keeps the parent graph acyclic, so the ancestor loop still ends |
| RegistryLoops.ClashCanTieALoop | src/auth/registry.py:60-99 | an operator's row and a later catalog that end in a cycle |
| RegistryLoops.ClashCanMisplace | src/auth/registry.py:60-99 | an operator's row that a later catalog wants elsewhere, and that stays where it was |
| RegistryLoops.ClashCanBeInPlace | src/auth/registry.py:60-99 | a clash that leaves the stored tree equal to the catalog |
| PermissionHistories.StepKeepsSaneExactly | src/auth/registry.py:39-101 | a settings call or synchronisation keeps references, unique codes and the forest if and only if it is not a synchronisation that meets a loop of clashes |
| PermissionHistories.HistoryStaysSaneExactly | src/auth/settings_crud.py:354-376 | over every history that mixes settings calls and synchronisations, the tables stay a forest at every point if and only if no synchronisation meets a loop of clashes |
| Calendar.DatesInDayOrder | scripts/backfill_platform_versions.py:71 | comparing dates by year, month and day is comparing them in time |
| Calendar.WeekBelongsToItsThursday | scripts/backfill_platform_versions.py:65 | the computed ISO year is the calendar year of the week's Thursday (ISO 8601:2004, section 4.1.4) |
| Calendar.WeeksInTimeOrder | scripts/backfill_platform_versions.py:69 | the order of ISO year and week is the order of the weeks in time, for all dates |
| Calendar.DaysBeforeYearAre | scripts/backfill_platform_versions.py:65 | the days before a year in closed form, with the Gregorian leap rule |
| Calendar.DaysBeforeMonthsAre | scripts/backfill_platform_versions.py:65 | the days of a year before each month |
| Calendar.KnownDay | scripts/backfill_platform_versions.py:65 | 1 January 1970 is day 719163 |
| Calendar.NewYearInFirstWeek | scripts/backfill_platform_versions.py:65 | 1 January 2026 lies in week 1 of its year |
| Calendar.JanuaryInOldYear | scripts/backfill_platform_versions.py:65 | 3 January 2021 lies in week 53 of 2020 |
| Calendar.DecemberInNewYear | scripts/backfill_platform_versions.py:65 | 30 December 2024 lies in week 1 of 2025 |
| CalVer.VersionNamesDiffer | scripts/backfill_platform_versions.py:29-30 | a version name determines its year, month and number |
| ReleaseLaws.VersionReads | scripts/backfill_platform_versions.py:29-30 | a version reads year, two-digit month and number in decimal, with dots between |
| CalVer.BucketWeekly | scripts/backfill_platform_versions.py:62-83 | the grouping and numbering loops yield the history of releases |
| CalVer.EveryCommitReleasedOnce | scripts/backfill_platform_versions.py:62-83 | all changes of all releases are the commits, each exactly as often as it occurs |
| CalVer.ReleaseHoldsItsWeek | scripts/backfill_platform_versions.py:69-82 | a release holds the commits of one ISO week in log order and is dated and named by the earliest |
| ReleaseLaws.ChangesTell | scripts/backfill_platform_versions.py:77-81 | the changes of a release tell of its week's commits one each in log order: type, summary and scope whole, twelve places of the hash |
| CalVer.VersionsRise | scripts/backfill_platform_versions.py:67-82 | releases are in time order and their (year, month, number) versions rise strictly |
| CalVer.VersionsAreUnique | scripts/backfill_platform_versions.py:67-82 | no two releases of a history share a version name |
| CalVer.NumbersHaveNoGap | scripts/backfill_platform_versions.py:68-73 | the numbers of a month run from 1 without a gap |
| CalVer.WriteReleases | scripts/backfill_platform_versions.py:93-120 | the insert loops leave the tables as the fold of single writes |
| CalVer.WriteTwice | scripts/backfill_platform_versions.py:3-5 | running the backfill again writes nothing, whatever the tables held |
| CalVer.HistoryIsStored | scripts/backfill_platform_versions.py:93-120 | on tables without these versions, each release is stored with all its changes |
| ReleaseLaws.WrittenExactly | scripts/backfill_platform_versions.py:93-120 | whatever the tables held, each release ends with its own date and changes unless its row already had some, and no other version is touched |
| Licences.AttributeLicencesToDc | shared/licensing/dc_breakdown.py:118-151 | the tenant and family loops give the rounded sum of shares, skipping tenants without footprint |
| Licences.NamesFold | shared/licensing/dc_breakdown.py:134-135 | names that differ in case or in white space around them are one tenant |
| Licences.LastCounts | shared/licensing/dc_breakdown.py:134-135 | of entries whose names fold to one key the last counts; a name not listed counts nothing |
| Licences.ShareExactly | shared/licensing/dc_breakdown.py:140-146 | a share is the part of the machines here, one where all are here or more are counted here than everywhere, none where none are known |
| Licences.OneTenantAdds | shared/licensing/dc_breakdown.py:137-149 | a tenant adds its quantity of a family times its share |
| Licences.TenantsAddUp | shared/licensing/dc_breakdown.py:137-149 | the tenants' contributions add up |
| Licences.RoundIsNearest | shared/licensing/dc_breakdown.py:151 | rounding goes to a nearest integer, a tie to the even one |
| Licences.SharesMakeOneExactly | shared/licensing/dc_breakdown.py:146 | a tenant's shares over the datacenters make 1 if and only if its counts make up its total |
| Licences.LicencesAddBackUp | shared/licensing/dc_breakdown.py:127-132 | when counts partition the totals, unrounded licences over all datacenters equal what tenants with a footprint bought |
| Licences.RoundedLicencesStayClose | shared/licensing/dc_breakdown.py:118-151 | the rounded figures of D datacenters differ from it by at most D/2 a family |

## Left out

- User interface, HTTP clients, SQL drivers, Redis and LDAP protocols, YAML loading, password hashing: only the tables and maps they stand for are modelled.
- Redis outages, reconnects and races inside one call: each public call is one atomic step.
- Catalog synchronisation after maps are cached: it clears no cache, so runs start after it.
- PermissionCache.Worker.SetRolePermission: with `invalidate_cache=False` the call is modelled but is not a step of the runs, because no caller in the repository passes it.
- Settings calls the database refuses midway, and the admin service that writes the same tables: runs hold only calls whose referenced rows exist.
- Registry.SyncPermissionsFromCatalog: requires distinct catalog codes; with a repeated code the depth loop need not end.
- Local user creation, profile, team and role names, and sessions: steps of the runs (`PermissionCache.Change`) without a method of their own.
- `get_visible_sections` and subtree listing: reads of the same effective map.
- IEEE 754 rounding: reals are exact, so equalities hold up to the rounding of the floats.
- Characters whose lower-case form is longer than one character, and Unicode case folding in regular expressions: lower-casing is one character to one.
- Tags stored as JSON text: the model starts from the parsed tag names.
- Allocation track against maximum track: not ordered in general, they read different fields.
- Engines.ConstrainPerHostTripleDual: the accumulations with shared mounts, which no output reads, are not repeated; display waste tags are left out.
- HostSellable.HostMaxBelowAvg: the legacy track name `peak` is an alias of the maximum track and has no value of its own.
- Engines.TripleEngineOrdersTracks: package sizes are not negative; a negative size would reverse the order.
- StorageCaps.StorageFollowsEngine: the refresh, range and replication steps that fill the waiting storage panels are not repeated; their figures are arbitrary.
- EngineLaws.EnginesAgree: hosts have positive CPU and RAM totals; without one the triple engine drops the resource from the minimum and the pair engine counts zero.
- The cluster-fallback engine, storage range helpers and price conversion: further arithmetic of the same kind.
- Policy tokens and the policy index: the index is a parameter.
- Payload assembly, de-duplication and sorting of the worklist page.
- `aggregate_by_dc`, `role_catalog` and the tenant occupancy query: sums over the same merged racks.
- Occupancy queries with a datacenter filter: the two filter on different labels, so their totals need not agree.
- Occupancy.DedupePhysicalRacks: log messages are left out.
- OccupancyLaws.MergeIgnoresOrder: the raw role and the identity of a merged rack may depend on row order between colocation duplicates, so they are compared by sellability and holder.
- Names, routes, icons and sort order of permission rows: the tree holds code, parent, type and the operator's mark.
- Commit subject parsing and reading the log: commits are parameters; `released_at` is kept as a date.
- Licence product rules and the per-architecture tallies.
