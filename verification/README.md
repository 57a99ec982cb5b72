# Verified model of perimeterd

perimeterd compiles IP policy into firewall rules, applies them as a crash-recoverable
transaction, keeps a timed set of bans in the kernel, and answers what happens to an address.
This project models that behaviour in Dafny and proves what its parts promise. All `.dfy` files
here form one project (`dfyconfig.toml`).

**Addresses** (`Address`, `Range`, `PrefixSet`, `Limbs`, `DeadlineHeap`, `Projection`, `Dynamic`,
`DecisionStore`, `Intervals`). An address is a number below 2^32 or 2^128, a prefix an aligned block.
Two blocks are nested or disjoint, and everything else builds on that: exact difference of canonical
sets, the minimal cover of a range, the sweep that turns overlapping bans into disjoint prefixes with
the latest deadline, and the normal form by which kernel sets are compared.

**Policy** (`Policy`, `GeoSets`, `Compile`, `Lowering`, `LoweredSets`, `Pipeline`, `CompiledModel`).
`Compile.Declared` reads a configuration directly, without rules or order. Compiled first-match rules
give the same verdict to every packet, and both backends lower them without changing any packet's fate.
`Pipeline.Enforce` joins compiler, projection and backends.

**Lookup** (`Partition`, `Ports`, `Evaluate`, `Lookup`, `Volume`, `Coverage`, `Prediction`). An answer
for a whole prefix evaluates one representative per cell. It is proved right at every address and port,
once each, and the independent check by volume accepts exactly such answers. `Prediction.Predict` shows
that an answer says what the configuration declares and what the kernel does.

**Transactions** (`Protocol`, `Engine`). Every call into the store or the backend may succeed, fail
without effect, fail after taking effect, or end the process; a record that was written but not synced
may or may not survive. `Protocol.Inv` ranges over all record values a crash can leave. The kernel also
holds names of others, and every call into the backend is logged with the journals that a crash at its
moment could leave, so that `Engine.Run` can say what was touched and on whose authority.

**Live state** (`Lease`, `QueryView`, `IpsetPlan`, `Codec`, `CodecLaws`). Lease evidence never outlasts the kernel
entry, the lock-free reader returns only the last published view, and an interrupted set update can be
planned again from what is observed.

One promise is false of the code and is stated with its exact condition. A rule argument that is
written without quotes may contain white space other than blank and tab, such as a no-break space,
which the reader takes for a separator. `Codec.NoBreakSpaceSplits` shows it and `Codec.ReadsBackIff`
gives the condition: the rule reads back exactly when no unquoted argument holds white space.

The description of the allowed outcomes of store operations follows `internal/state/store.go` and
`internal/state/filesystem.go`.

## Model

| member | source | states |
|---|---|---|
| `Address.Laminar` | internal/prefix/set.go:220-235 | two aligned blocks of one family are nested, the longer in the shorter, or disjoint |
| `PrefixSet.Canonicalize` | internal/prefix/set.go:173-188 | the result is sorted and pairwise disjoint, holds exactly the addresses of the input, and only input prefixes |
| `PrefixSet.New` | internal/prefix/set.go:24-45 | fails exactly on a malformed prefix; otherwise a canonical set of exactly the listed addresses, host bits ignored |
| `PrefixSet.Union` | internal/prefix/set.go:48-64 | canonical, and holds an address exactly when some operand does |
| `PrefixSet.OverlapRange` | internal/prefix/set.go:237-247 | binary search finds exactly the slice of exclusions that touch the node |
| `PrefixSet.SubtractCorrect` | internal/prefix/set.go:220-235 | recursive splitting ends, loses no host node, and leaves canonical blocks that hold exactly the node's addresses outside the exclusions |
| `PrefixSet.ProcessFamily` | internal/prefix/set.go:200-218 | the sliding window over the exclusions gives the exact difference for one family |
| `PrefixSet.Difference` | internal/prefix/set.go:68-88 | for all canonical sets: canonical again, and holds an address exactly when the included set does and the excluded one does not |
| `PrefixSet.Contains` | internal/prefix/set.go:91-111 | binary search agrees with a scan of all prefixes |
| `Range.AppendRange` | internal/prefix/range.go:17-43 | appends the greedy cover, which holds exactly the addresses from start to end; refuses exactly mixed families, IPv4-mapped ends and reversed ranges |
| `Range.CoverTiles` | internal/prefix/range.go:17-43 | the greedy cover is ascending, gapless and exactly the range |
| `Range.CoverMinimal` | internal/prefix/range.go:10-43 | no exact cover of the range by aligned blocks, however chosen, has fewer blocks |
| `Limbs.AddPowerCorrect` | internal/crowdsec/projection.go:181-212 | adding a power of two with carries on two 64-bit limbs gives the number past the block, or the top of the family |
| `Limbs.AlignedU128Correct` | internal/crowdsec/projection.go:243-257 | the limb alignment test is alignment of the number |
| `Limbs.CompareIsOrder` | internal/crowdsec/projection.go:214-241 | comparing boundaries is comparing the positions they stand for |
| `DeadlineHeap.Push` | internal/crowdsec/projection.go:46-52 | keeps the heap order and adds exactly one item |
| `DeadlineHeap.Pop` | internal/crowdsec/projection.go:54-59 | removes exactly the root and keeps the heap order |
| `Projection.Current` | internal/crowdsec/projection.go:93-160 | dropping stale roots lazily finds the latest deadline of an active decision, if any |
| `Projection.ChooseSize` | internal/crowdsec/projection.go:259-310 | the largest aligned size that does not pass the end; one is always found, so the failing branch is unreachable |
| `Projection.DecomposeRange` | internal/crowdsec/projection.go:259-310 | appends the same greedy cover as the inclusive-range decomposition, each block with the deadline |
| `Projection.Sweep` | internal/crowdsec/projection.go:93-160 | segments of constant latest deadline, exactly over the banned addresses, adjacent equal deadlines merged |
| `Projection.FlattenProjects` | internal/crowdsec/projection.go:93-160 | decomposed segments form a projection: disjoint, exact, maximal deadlines, no two siblings with equal deadlines |
| `Projection.ProjectFamily` | internal/crowdsec/projection.go:93-160 | the loop computes such a projection for one family |
| `Projection.Project` | internal/crowdsec/projection.go:72-91 | both families: at most one prefix per address, one exactly when an unexpired decision covers it, with the latest deadline |
| `Dynamic.ValidateDynamic` | internal/firewall/dynamic.go:37-63 | accepts exactly the well-shaped, pairwise disjoint timed prefixes, whatever their order |
| `Dynamic.ProjectionsAcceptable` | internal/firewall/dynamic.go:37-63 | every projection is accepted |
| `DecisionStore.ValidateBatch` | internal/crowdsec/store.go:262-286 | accepts exactly positive identities, aligned prefixes that are not IPv4-mapped, non-zero deadlines and no identity twice |
| `DecisionStore.PredictionExact` | internal/crowdsec/store.go:178-213 | the change prediction is true exactly when applying the batch would change the retained map, sequences included |
| `DecisionStore.Store.Apply` | internal/crowdsec/store.go:127-176 | identity by identity: a live addition is held under the new sequence, a lapsed one and a deletion remove, a startup batch forgets the rest, and otherwise what was held stays as it was until its deadline; refuses exactly stale sequences, invalid batches and changes past exhaustion, and then changes nothing; the revision moves exactly with the map |
| `DecisionStore.Store.Expire` | internal/crowdsec/store.go:217-235 | drops exactly the expired decisions; the revision moves exactly when something was dropped; exhausted stores stay unchanged |
| `DecisionStore.Store.NextExpiry` | internal/crowdsec/store.go:249-260 | the earliest retained deadline, or zero |
| `DecisionStore.Run` | internal/crowdsec/store.go:127-235 | any run of batches and expiries equals the run of the one-line specification |
| `DecisionStore.RevisionTracks` | internal/crowdsec/store.go:127-235 | over any run the revision is the old one plus the number of steps that changed the map, never past its last value |
| `DecisionStore.Store.Projection` | internal/crowdsec/store.go:240-245 | holds an address until t exactly when t is the latest deadline of a retained, unexpired decision that covers it |
| `DecisionStore.ProjectLater` | internal/crowdsec/projection.go:72-91 | of one store, a later projection is the earlier one restricted to the deadlines still ahead, whether or not expired decisions were dropped in between |
| `Engine.Store.Prepare` | internal/state/store.go:192-243 | writes the revision file, then the intent; refuses over a pending intent or another active record; without a fault it succeeds |
| `Engine.Store.MarkPhase` | internal/state/store.go:246-260 | moves only the phase of the recorded intent |
| `Engine.Store.Commit` | internal/state/store.go:317-335 | replaces only the active record, visibly, certainly or not at all |
| `Engine.Store.Stabilize` | internal/state/store.go:338-378 | on success what is visible is certain |
| `Engine.Store.Finish` | internal/state/store.go:471-528 | removes the intent first, then exactly the revision files it names except the active one, and no other file |
| `Engine.Store.BeginCleanup` | internal/state/store.go:381-439 | records a cleanup of exactly the referenced revisions |
| `Engine.Store.RemoveActive` | internal/state/store.go:442-468 | removes only the active record |
| `Engine.Backend.Switch` | internal/firewall/router.go:77-97 | never removes an object, touches no hook of neither target, and on success every hook of the new target dispatches to it |
| `Engine.Backend.Retire` | internal/firewall/router.go:100-111 | removes at most what only the retired target owns |
| `Engine.Engine.SwitchAndCommit` | internal/app/engine.go:330-385 | after a prepared intent: a failed switch rolls back, a failed commit is resolved by what is found |
| `Engine.Engine.ApplyLocked` | internal/app/engine.go:258-385 | any failure or death at any step keeps the invariant; the outcome names the candidate when committed, and otherwise the revision that was active or none; what neither target owns, foreign or not, object or hook, is as it was; without a fault a current candidate is committed |
| `Engine.Engine.Rollback` | internal/app/engine.go:387-417 | ends healthy with the previous target selected and nothing pending, or degraded with the intent kept |
| `Engine.Engine.ResolveCommitError` | internal/app/engine.go:419-433 | an uncertain commit is decided by the record found after settling, never by the error |
| `Engine.Engine.ResolveCommitted` | internal/app/engine.go:435-456 | a commit that took effect is completed forward and is never rolled back |
| `Engine.Engine.Recover` | internal/app/engine.go:475-619 | success leaves no intent and the kernel selecting the target of the active record found, or nothing after a pending cleanup; touches only what the records found refer to; without a fault it succeeds |
| `Engine.Engine.RemoveEverything` | internal/app/engine.go:635-691 | touches only what the records found refer to, behind a recorded intent, and success leaves nothing of the owner's; without a fault it succeeds |
| `Engine.Engine.Admit` | internal/app/engine.go:128-142 | given exactly to an open, healthy engine below the last 64-bit epoch; afterwards the reload of this epoch and no other is current, and refreshes stay as current as they were |
| `Engine.Engine.AdmitRefresh` | internal/app/engine.go:146-160 | given exactly to an open, healthy engine for its active epoch below the last sequence; afterwards the refresh of this sequence and no other is current, and reloads stay as current as they were |
| `Engine.Engine.Adopt` | internal/app/engine.go:760-775 | takes the epoch of the active revision, keeps later admissions above it, and takes its refresh sequence unless the same epoch has gone further |
| `Engine.Reload` | internal/app/engine.go:128-184 | without faults a reload that is admitted and applied is committed, reported active, and selected in the kernel |
| `Engine.Refresh` | internal/app/engine.go:146-184 | and so is a refresh of the active configuration |
| `Engine.Superseded` | internal/app/engine.go:125-178 | a reload admitted later fences an earlier one: it is not committed and nothing is touched |
| `Engine.ApplyCrashRecover` | internal/app/engine.go:258-456 | an apply failing anywhere, any crash, then a successful recovery: nothing pending and the kernel selects the active target, which is the candidate exactly when its commit record is the one found; a reported commit is never lost; without a fault the recovery succeeds |
| `Engine.Run` | internal/app/engine.go:182-775 | after every run of applies, failures, deaths, host restarts, recoveries and cleanups: every backend call so far was permitted by all journals a crash at its moment could leave, a candidate replaced its predecessor only once sure to be journalled as committed, nothing foreign has changed, and unless a host restart is still unrepaired every active record that can survive has its target in the kernel |
| `Engine.RunThenRecover` | internal/app/engine.go:475-619 | after any run at all, a restart and a recovery without faults succeed, leave nothing pending and select the active target |
| `Protocol.CommitKeeps` | internal/state/store.go:317-335 | a commit in any of its outcomes keeps the invariant over all record values a crash can leave |
| `Protocol.RetireKeeps` | internal/app/engine.go:435-456 | retiring is safe exactly because the active record can only name the kept target |
| `Protocol.BeginCleanupKeeps` | internal/state/store.go:381-439 | a cleanup intent covers everything the kernel may own |
| `GeoSets.EqualGeoSequence` | internal/policy/geo_sets.go:59-71 | the scan decides equality of the two sequences |
| `GeoSets.Interner.Intern` | internal/policy/geo_sets.go:39-57 | binds the policy to the one set with its sequence, for any fingerprint function |
| `GeoSets.CompileGeoSets` | internal/policy/geo_sets.go:20-37 | one set for each sequence that occurs, under the least name of its policies, in the order of names; two policies share one exactly when their prefixes are equal |
| `GeoSets.SharingUnique` | internal/policy/geo_sets.go:20-57 | sets and bindings depend only on which policy selects what: neither order nor fingerprints leave a trace |
| `Compile.SnapshotUnion` | internal/policy/compile.go:132-143 | fails exactly on a missing selector; otherwise the union of the named sets |
| `Compile.CompilePolicies` | internal/policy/compile.go:68-130 | succeeds exactly on acceptable policies, in any order; the result holds every enabled policy with its included-minus-excluded addresses, by priority in each direction |
| `Compile.ScopeMeaning` | internal/policy/compile.go:252-282 | a compiled traffic scope matches a packet of its family exactly when the configured traffic does, and is missing only when that can match nothing |
| `Compile.PolicyRulesDecide` | internal/policy/compile.go:192-250 | first match over the policy rules is the verdict of the first policy that applies |
| `Compile.PathDeclared` | internal/policy/compile.go:192-250 | first match over a path is the declared verdict for every packet, ban list and set contents |
| `Compile.CompileFamily` | internal/policy/compile.go:145-176 | a family plan gives every packet of the family the declared verdict, policy name and counter |
| `Compile.Compile` | internal/policy/compile.go:21-66 | succeeds exactly on acceptable configurations; every packet of a managed family gets the declared verdict, case by case: blocklist, bans and policies stop it by the configured action with their reason, everything else is let through |
| `Compile.DeclaredBehaves` | internal/policy/compile.go:57-66 | the declaration read case by case: which packets are stopped, for which reason and policy, by the configured action, and which are let through |
| `Compile.DeclaredUnique` | internal/policy/compile.go:68-130 | a configuration declares at most one verdict for a packet |
| `Compile.CompileAgain` | internal/policy/compile.go:68-130 | reordering the policies or changing the fingerprints changes neither whether it compiles nor any verdict |
| `Lowering.NftVariants` | internal/firewall/nftables_model.go:719-790 | the nftables variants match exactly the scope, with reset for TCP and prohibition for the rest |
| `Lowering.NftRules` | internal/firewall/nftables_model.go:664-717 | the generation chain decides as the unguarded rules do |
| `Lowering.IptVariants` | internal/firewall/iptables_model.go:519-552 | the iptables variants match exactly the scope, on current or original ports |
| `Lowering.IptRules` | internal/firewall/iptables_model.go:586-648 | fails exactly on rules the backend cannot express; otherwise decides as the unguarded rules do |
| `Lowering.EntryRuns` | internal/firewall/iptables_model.go:480-488 | the entry chain passes everything that is not new and otherwise follows the generation chain |
| `Lowering.LoweringPreserves` | internal/firewall/nftables_model.go:652-717 | entry plus generation chain give the fate of the whole path for every packet, reset versus prohibition included |
| `Lowering.LowerBoth` | internal/firewall/iptables_model.go:586-648 | with current destination ports the two backends give every packet the same fate |
| `LoweredSets.LoweredPrefixes` | internal/firewall/iptables_model.go:313-353 | fails exactly on malformed prefixes or the wrong family; otherwise no zero-length entry, no duplicate, the same addresses |
| `LoweredSets.LoweredTimed` | internal/firewall/iptables_model.go:278-311 | skips other families, no zero-length entry, no duplicate; an accepted projection keeps the deadline of every address |
| `LoweredSets.EnforceNft` | internal/firewall/nftables_model.go:652-717 | nftables gives every packet of the family the declared fate, in whatever blocks the bans are held |
| `LoweredSets.EnforceIpt` | internal/firewall/iptables_model.go:480-648 | refuses exactly rules it cannot express; otherwise iptables, with its lowered sets and either port basis, gives every packet the declared fate |
| `Pipeline.CompileAndLower` | internal/policy/compile.go:21-55 | every acceptable configuration compiles and lowers in both backends, one result for each enabled family, to chains that give each packet its declared fate |
| `Pipeline.ProjectBans` | internal/crowdsec/projection.go:72-91 | the projection passes validation, and what either backend keeps of it covers exactly the addresses under an unexpired decision |
| `Pipeline.Enforce` | internal/firewall/iptables_model.go:480-648 | the whole way: each packet meets the declared fate, with exactly the addresses under an unexpired decision banned; a drop configuration only drops, a reject configuration resets TCP and prohibits the rest, allowlisted and non-new packets pass |
| `Pipeline.TrafficOnWire` | internal/policy/compile.go:252-282 | which native packets a policy's traffic means, protocol by protocol |
| `CompiledModel.SameCompiledFamily` | internal/state/compiled_model.go:34-108 | for unique set names, true exactly when the plans are alike |
| `CompiledModel.SameCompiledFamilies` | internal/state/compiled_model.go:14-28 | decides alikeness family by family; accepted plans give every packet the same verdict |
| `CompiledModel.AlikeDecidesAlike` | internal/state/compiled_model.go:14-108 | alike plans give every packet the same verdict, policy and counter |
| `CompiledModel.UnshareAlike` | internal/state/compiled_model.go:14-108 | giving every policy its own copy of its set stays within the relation |
| `CompiledModel.AcceptsUnshared` | internal/state/compiled_model.go:34-108 | the check accepts a plan recorded with unshared sets |
| `Prediction.UnsharedAccepted` | internal/state/compiled_model.go:34-108 | and that holds for every plan of every configuration that compiles |
| `Partition.SplitAll` | internal/lookup/evaluate.go:239-276 | cells that split the query and that no boundary cuts; refused exactly when the split takes more cells than the limit |
| `Partition.PartitionPrefixes` | internal/lookup/evaluate.go:187-276 | disjoint cells in order that cover the query, on each of which every static boundary and dynamic prefix is constant, none smaller than it must be; refused exactly past the work limits |
| `Partition.MergePrefixes` | internal/lookup/evaluate.go:595-622 | sorted and disjoint, with exactly the given addresses and no two halves of one block |
| `Partition.MergedUnique` | internal/lookup/evaluate.go:595-622 | such a list is determined by its addresses |
| `Ports.PortCells` | internal/lookup/evaluate.go:310-342 | consecutive cells over all ports, on each of which every range is constant |
| `Ports.TrafficScopes` | internal/lookup/evaluate.go:299-344 | exactly one cell for every protocol and port asked about |
| `Ports.ScopeAnswers` | internal/lookup/evaluate.go:452-478 | the scope test on a cell agrees with each packet in it |
| `Evaluate.FirstMatchConstant` | internal/lookup/evaluate.go:386-450 | the first match is the same rule all over a cell |
| `Evaluate.RuleMatchesRight` | internal/lookup/evaluate.go:428-450 | the test by index and ban list is the rule's match at the representative |
| `Evaluate.EvaluateScope` | internal/lookup/evaluate.go:386-426 | the outcome is the first match at the representative |
| `Evaluate.ExpectedRight` | internal/lookup/evaluate.go:386-450 | that outcome is right for every new packet of the cell |
| `Evaluate.CoalesceOutcomes` | internal/lookup/evaluate.go:514-543 | says exactly what the given outcomes say, about each address once, with no two halves left to join |
| `Lookup.Static.BuildIndexes` | internal/lookup/static.go:144-177 | every set can be looked up and every prefix of every set is a sorted boundary of its family |
| `Lookup.UncertainDynamic` | internal/lookup/evaluate.go:171-185 | true exactly when something that touches the cell has lapsed |
| `Lookup.Static.Evaluate` | internal/lookup/evaluate.go:25-135 | in a complete answer every point asked about lies in exactly one outcome with the first match there; the headline is not blocked when all points are let through, blocked when all are stopped, mixed otherwise; nothing lapsed touches a managed query; there is an answer exactly when the evidence is usable, the limits hold, every cell has a match and no lapsed ban touches a managed cell |
| `Prediction.PlanIsReady` | internal/policy/compile.go:145-250 | every compiled plan has what lookup asks of a plan |
| `Prediction.CompiledDue` | internal/lookup/evaluate.go:386-426 | in compiled plans some rule matches in every cell |
| `Prediction.Predict` | internal/lookup/evaluate.go:25-135 | for every configuration that compiles, a complete answer gives each managed point the declared action and policy and the headline they make together, and that is the fate of every packet there in both backends; it fails for want of room only past the cell or record limits |
| `Volume.AreasFill` | internal/lookup/server.go:405-430 | disjoint rectangles inside a box fill it exactly when their areas add up to its area |
| `Coverage.ClashMeets` | internal/lookup/server.go:378-384 | the overlap test sees exactly the outcomes that share a point |
| `Coverage.ValidateCoverage` | internal/lookup/server.go:340-432 | accepts exactly the answers that split the whole box of every requested protocol for every attachment that occurs; an accepted answer stays inside the request and answers each address, protocol and port exactly once |
| `Coverage.AnswersPass` | internal/lookup/server.go:340-432 | every complete answer over named attachments is such a split |
| `Coverage.EvaluateAndValidate` | internal/lookup/server.go:340-432 | what the evaluation answers, the check accepts |
| `Lease.GrantShrinks` | internal/firewall/dynamic.go:16-29 | a later computation never grants more, and no grant outlasts the deadline |
| `Lease.GrantExact` | internal/firewall/dynamic.go:16-29 | there is a grant exactly when a unit or more remains; it is in whole units and within a unit of what remains, or it is the maximum |
| `Lease.WholeSecondsGranted` | internal/firewall/dynamic.go:16-29 | a ban of whole seconds, up to the maximum, is granted in full without renewal |
| `Lease.RenewalExact` | internal/firewall/dynamic.go:16-29 | a renewal is asked for exactly when the cap cuts off a second or more, halfway through the maximum lease |
| `Lease.FarDoesNotFence` | internal/app/crowdsec.go:340-385 | what outlasts the write by its own length and a second does not fence the view |
| `Lease.NearFences` | internal/app/crowdsec.go:340-385 | what ends within the length of the write does, as does any write longer than the maximum lease |
| `Lease.RenewedInTime` | internal/firewall/dynamic.go:16-29 | exactly capped leases ask for renewal, strictly before they run out |
| `Lease.CrowdState.RecordLeases` | internal/app/crowdsec.go:340-385 | every managed prefix is recorded or ends the view at finish; one that is far enough past the write is recorded, to within a second of what was left; the view otherwise ends with the first lease; renewal is halfway through the longest lease, exactly when some managed ban is longer |
| `Lease.RecordedIsConservative` | internal/app/crowdsec.go:340-385 | for any dispatch between start and finish a recorded lease is no later than the native expiry and the decision deadline |
| `Lease.AnswerFromLeases` | internal/lookup/evaluate.go:39-41 | when an answer is complete, the kernel still holds every prefix projected for a managed family |
| `QueryView.Fields.Restore` | internal/app/lookup.go:80-86 | publishes the fallback again, or does nothing without one |
| `QueryView.TraceKeeps` | internal/app/lookup.go:28-102 | under every interleaving a held view is still the last published one unless the version has moved on |
| `QueryView.AnswerIsSteady` | internal/app/lookup.go:31-64 | an answer that is not stale comes from the last published view, with nothing invalidated or published from the first version read to the second |
| `QueryView.StaleMeansChange` | internal/app/lookup.go:31-64 | an answer is called stale only when the version or the view has changed since the view was taken |
| `QueryView.Undisturbed` | internal/app/lookup.go:31-102 | between operations a reader that is not disturbed is answered from the last published view, or refused because it was taken back |
| `QueryView.RestoreUndoes` | internal/app/lookup.go:66-102 | restoring after any number of invalidations brings the same content back under a new version |
| `QueryView.AbortForgets` | internal/app/lookup.go:74-86 | after an abort nothing can be read or restored |
| `IpsetPlan.DynamicCapacity` | internal/firewall/iptables.go:208-214 | enough for the entries, never below the initial capacity, and less than double what is needed |
| `IpsetPlan.AppendDynamicIPSet` | internal/firewall/iptables.go:219-265 | from any well-formed kernel the script ends with exactly the wanted entries and timeouts and no spare; between any two lines no set is over capacity and the live set keeps every old entry that is wanted |
| `IpsetPlan.StopAndReplan` | internal/firewall/iptables.go:216-265 | stopping after any line and planning again from what is observed still ends with exactly the wanted entries |
| `IpsetPlan.RestoreBounded` | internal/firewall/iptables.go:273-292 | pieces are whole lines within the limit, in order, join to the input, and none could have taken in another line; refused exactly when a line does not fit |
| `Intervals.NormalUnique` | internal/firewall/nftables_model.go:333-360 | the addresses determine the merged intervals |
| `Intervals.MergeIntervals` | internal/firewall/nftables_model.go:333-360 | leaves in place ordered intervals with gaps between them and exactly the same addresses |
| `Intervals.SetElementsComplete` | internal/firewall/nftables_model.go:429-465 | true exactly when all elements are readable and their addresses are the expected ones |
| `Intervals.WrittenAgrees` | internal/firewall/nftables_model.go:362-465 | however the kernel cuts and orders it, as prefixes, ranges or single addresses, a report of the expected blocks is complete |
| `Codec.IptQuote` | internal/firewall/iptables_codec.go:18-42 | writes the quoted form that reads back as the text |
| `Codec.QuotedDecodes` | internal/firewall/iptables_codec.go:107-180 | any text, quoted, reads back as one literal token |
| `Codec.SplitLine` | internal/firewall/iptables_codec.go:107-180 | the scanner loop computes the tokens and which are literal; fails exactly on unfinished quoting |
| `Codec.RenderRule` | internal/firewall/iptables_codec.go:364-379 | fails exactly on an invalid chain or an unsafe token; otherwise the rendered line |
| `Codec.RenderedReads` | internal/firewall/iptables_codec.go:364-379 | a rendered rule reads back as -A, the chain and the arguments, literal exactly where quoted |
| `Codec.ReadsBackIff` | internal/firewall/iptables_codec.go:364-379 | an accepted rule reads back exactly when no unquoted token holds white space |
| `Codec.NoBreakSpaceSplits` | internal/firewall/iptables_codec.go:372-375 | a token with a no-break space is accepted, written without quotes, and does not read back |
| `Codec.SaveRecords` | internal/firewall/iptables_codec.go:47-100 | the scan by positions yields the records with their line numbers |
| `Codec.BatchSplits` | internal/firewall/iptables_codec.go:47-100 | a newline-joined batch of rendered rules splits back into the same records |
| `CodecLaws.OrdinaryReadsBack` | internal/firewall/iptables_codec.go:364-379 | with no white space but blanks and tabs every accepted rule reads back |
| `CodecLaws.MarkedExactly` | internal/firewall/iptables_codec.go:102-180 | an argument comes back marked as data exactly when it holds a special character or is a comment |
| `CodecLaws.EscapeHidesControls` | internal/firewall/iptables_codec.go:15-42 | a quoted text holds no newline, return, tab or null, whatever it says |
| `CodecLaws.TickedDecodes` | internal/firewall/iptables_codec.go:107-180 | between single quotes everything stands for itself |
| `CodecLaws.UnfinishedFails` | internal/firewall/iptables_codec.go:102-180 | unfinished quoting is an error |
| `CodecLaws.WordsSplit` | internal/firewall/iptables_codec.go:107-180 | white space separates words |
| `CodecLaws.FragmentsJoin` | internal/firewall/iptables_codec.go:102-180 | a quoted part continues the word it touches |
| `CodecLaws.BackslashKeeps` | internal/firewall/iptables_codec.go:107-180 | outside quotes a backslash makes the next character part of the word |
| `CodecLaws.QuotedNewlinesStay` | internal/firewall/iptables_codec.go:44-100 | newlines inside quotes are text: one record, and the next line number is past them |
| `CodecLaws.CommentOpens` | internal/firewall/iptables_codec.go:79-88 | a number sign opens a comment only before anything else in a record |
| `CodecLaws.CommentsEnd` | internal/firewall/iptables_codec.go:44-100 | a header comment ends at its newline, whatever quotes it holds |
| `CodecLaws.EscapedNewlineStays` | internal/firewall/iptables_codec.go:44-100 | an escaped newline does not end a record |
| `CodecLaws.SavedTable` | internal/firewall/iptables_codec.go:44-100 | a header, a quoted text with newlines and what follows are numbered and split as saved |

## Left out

- Engine.Engine.ApplyLocked: the text and wrapping of errors, telemetry, and the lookup fences it raises are not modelled; a cancelled context is one of the failures every step may have.
- Engine.Engine.Recover: re-applying and validating dynamic bans during recovery is not modelled, because the abstract backend has no set contents.
- Engine.Backend.Switch: the backend is abstracted to installed objects and hook dispatch; which native commands it issues is modelled only for rules and sets. That a target has only names derived from its owner is part of its type.
- Engine.Engine.Restart: a host restart removes what the owner had installed and leaves foreign names as they were; what others do meanwhile is not modelled.
- Engine.Store.Prepare: file contents, checksums, locks and permissions are not modelled, only which records are visible and which are certain after a crash.
- Compile.Compile: selector expansion (countries, groups, registries) is an input, as are the pinned geo-eligible sets; error texts are not modelled.
- Compile.CompileFamily: counters on path entry and names derived by hashing are not modelled; a set name is a constructor instead of a text.
- CompiledModel.SameCompiledFamily: does not distinguish a missing prefix list from an empty one, which deep equality does for non-geo sets.
- Lowering.NftRules: the JSON encoding, ownership comments and the base chain that selects the family are not modelled.
- Pipeline.CompileAndLower: port ranges are 16-bit and in order, and the geo-eligible table of a family holds that family only, as configuration loading and the pinned tables guarantee.
- Lowering.IptRules: interface filter chains and attachment jumps are not modelled; actions and flow guards outside the policy model cannot be expressed.
- Lookup.Static.Evaluate: evidence texts, stage names and the order in which outcomes are listed are left open (evidence is an opaque function of rule and cell); cancellation is not modelled.
- Lookup.Static.BuildIndexes: provenance records only contribute boundaries; attachments are given as already sorted and copied.
- Evaluate.CoalesceOutcomes: the final sort for presentation is not modelled, because no verdict depends on it.
- Coverage.ValidateCoverage: the checks on fields made before it (verdict words, evidence providers, record limits) are not modelled.
- Lease.CrowdState.RecordLeases: with both times missing the end of the view reads as absent, and then nothing is claimed; no caller passes both as missing.
- Lease.AnswerFromLeases: polling, retries, watermarks and reconciliation scheduling around the evidence are not modelled.
- QueryView.AnswerIsSteady: the version counter is unbounded, so a reader that sleeps through 2^64 changes is not modelled; there is one reader.
- IpsetPlan.AppendDynamicIPSet: timeouts do not run down between observing and finishing; parsing of the observed capacity is an input.
- Intervals.PrefixInterval: the bit operations on address bytes are written as arithmetic on the number.
- Intervals.SetElementsComplete: JSON decoding is an input; an element is an address, a prefix, a range or unreadable.
- Codec.RenderRule: text is a sequence of code points, so invalid UTF-8 is not modelled; the byte limit on chain names counts code points, which are single bytes for every accepted name.
- Projection.Project: clock readings are inputs.
- Sources, manifests, HTTP and Unix-socket transport, YAML parsing, command-line output, metrics and process supervision are not modelled.
