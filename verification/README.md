# RedForge: a verified model of its inner layers

RedForge is a scan framework. Capabilities declare the pipeline state they
require and provide; a planner turns requested outputs into an ordered plan, a
builder turns the plan into a pipeline, and the pipeline runs it over one shared
context. The capabilities downstream of reconnaissance are pure: they merge
observations into assets, look technologies up in a vulnerability database, build
a knowledge graph, derive risk priorities and correlate findings. This project
models that pure core in Dafny and proves what it is for.

    dafny verify dfyconfig.toml

## What is modelled, and the main results

**Planning** (`Definitions`, `Kahn`, `Requests`, `Finishing`, `Plans`,
`TopologicalOrders`, `Planning`, `Preparation`, `Building`). `Requests` says
what a request demands without any algorithm: reachability through sole
producers, cycles, and when a plan must exist. The depth-first expansion, the
heap loop and the plan constructor are methods proved against it. A plan is
returned exactly when one must exist; it contains exactly the reachable
capabilities in a topological order, which is the lexicographically least one;
every error is justified by the request; and the errors of the second phase are
unreachable. Planning again over a registry without unused disabled capabilities
gives the identical plan.

**Running** (`Runtime`, `Runs`, `Publications`, `Pipelines`). A run is a
function of the capabilities' answers and clock readings, all arbitrary. Which
answer is kept, which is replaced by which error, and what lies in the context
afterwards is said of the answers alone. Over every run the history has the
promised shape, the context is the replay of the accepted batches, nothing
outside the plan's outputs changes, limits hold, and expiry publishes nothing.

**Identity merging** (`Linkage`, `Recon`, `Identity`, `IdentityIndexes`,
`Assets`, `AssetIntelligence`, `Ownership`). The index is modelled with its heap
objects, its list and its dictionary. After any additions, two aliases share a
builder exactly when they are linked through the added alias sets, although
removal from the list goes by value equality. The assets are a function of the
knowledge alone; every host, endpoint, subdomain and technology belongs where
its names say, and only hosts merge names.

**Finding correlation** (`Findings`, `Comparisons`, `Grouping`, `Anchors`,
`Correlation`, `Correlated`, `Canonicals`, `CanonicalIdentities`, `Collisions`,
`Collections`). Grouping partitions findings into pairwise mergeable groups and
is independent of the input order; anchors are stable for unique fingerprints;
the cap on decisions is out of reach. Findings that never contradict the others
of their asset and selected reference are grouped by these two and never
collide. Canonical identities are *not* always distinct: see below.

**Graph and risk** (`Strings`, `Vulnerabilities`, `VulnerabilityIntelligence`,
`Lookups`, `KnowledgeGraphs`, `Snapshots`, `Risk`, `Scoring`,
`RiskIntelligence`, `RiskPaths`, `Integrity`, `Assessments`). Each stage is
exact about what it relates and what it skips. `Integrity.Analyze` runs the four
one after another, on any reconnaissance inputs and against any provider:
nothing is skipped, and, when digests tell technologies apart, there is one
assessment for each observed technology and vulnerability reported for it, made
from that technology, that vulnerability and a most confident of the
associations between them, and no other assessment.

**Text** (`Nvd`, `Pagination`, `Cpe`, `Nuclei`, `Detections`, `Urls`,
`UrlGrammar`, `Hostnames`, `AffectedEndpoints`, `Crawl`). Which texts are URLs,
host names, endpoints and detections, and what they mean, is said without the
code that reads them. Pagination refines fetching everything, the pieces of CPE
names and URLs round-trip, normalizing a URL twice is normalizing it once, and
the findings kept of detection output do not depend on the order of its lines.

## Where the code does less than one would hope

- Correlation is not total. Findings of one subject that select the same reference
  but contradict in another are kept apart, receive one anchor and are rejected
  (`Collisions.KeptApartThenRejected`). Among findings that agree on whether an
  endpoint and a technology are named, this is the only way to collide
  (`CanonicalIdentities.CorrelatesExactly`); without that agreement even findings
  that would merge can collide (`Collisions.AmbiguousSubjectsCollide`).
- `group`, called with records of equal fingerprints, may find no stable anchor
  (`Collisions.EqualFingerprintsUnstable`). It happens only when two findings of one
  fingerprint share a reference and select different ones
  (`Collisions.UnstableOnlyForEqualFingerprints`); a record collection excludes that.
- An affected endpoint is recovered from its canonical URL exactly if its path starts
  with a slash and is within the limit. A scheme argument that itself contains an
  authority breaks that, because the scheme text is not restricted to HTTP before it
  is put in front of the authority (`AffectedEndpoints.SchemeCapturesHost`,
  `AffectedEndpoints.HazardIsReal`).
- An empty page before the end of a paginated answer is taken for the end
  (`Nvd.EmptyPageTruncates`). Against servers of contiguous pages that is the only way
  to lose anything: a fetch that succeeds is complete exactly when no page within the
  limit is empty too soon (`Nvd.TruncatesExactly`).
- Components of CPE names are percent decoded before their backslashes are removed,
  which the binding of section 6.2 of NISTIR 7695 does not ask for. A text is read
  back exactly when it holds no percent sign before two unquoted hexadecimal digits
  (`Cpe.DecodesExactly`); `%3A` is read as a colon (`Cpe.PercentIsLost`).
- The malformed count of the detection fold may depend on the order of lines
  (`Nuclei.MalformedDependsOnOrder`). It does exactly when a finding that is not the
  least of its fingerprint occurs twice (`Nuclei.ProviderStableExactly`).
- A CVSS score above 10 is treated as absent, so it can contribute less than a lower
  one; that is the only exception to monotonicity (`Risk.CvssMonotone`).
- `Pipeline.add` stores a given contract before it checks for a duplicate, so a
  refused capability can leave its contract behind (`Pipelines.Pipeline.Add`).

## Reading the model

Identifiers that the code only compares and orders are natural numbers (`Name`),
with zero for the empty string; node identifiers, CPE names and URLs are strings.
Exceptions are `Option` or `Result` values. SHA-256 identities are the payload they
digest, or an arbitrary function with an explicit injectivity condition. Iteration
over a set or dictionary is a loop that picks an arbitrary element, so a result
proved for it holds for every order; `sorted` is one method that orders distinct
elements by an arbitrary sort key, with ties in any order. Library functions (address
parsing, IDNA, NFKC, case folding, UTF-8 decoding), the provider, the server, the
clock and the capabilities are arbitrary functions or inputs.

## Model

| member | source | states |
|---|---|---|
| Definitions.CapabilityRegistry.Register | src/redforge/planning/registry.py:22-30 | a new identity is added and nothing else changes; a known identity is refused and nothing is replaced |
| Definitions.CapabilityRegistry.ProducersFor | src/redforge/planning/registry.py:74-87 | exactly the registered definitions that provide the key, ascending by identity |
| Definitions.InOrder | src/redforge/planning/registry.py:53-59 | the definitions of given identities, each once, ascending by identity |
| Definitions.BuildRegistry | src/redforge/planning/registry.py:15-20 | succeeds exactly when every registration does, and then holds the registered catalogue |
| Definitions.RegisteredExactly | src/redforge/planning/registry.py:15-30 | registration succeeds exactly on distinct identities, and the catalogue then holds precisely those definitions |
| Definitions.RegistrationOrderIrrelevant | src/redforge/planning/registry.py:15-30 | permuting the registered definitions gives the same catalogue or the same refusal |
| Definitions.SupplierIs | src/redforge/planning/planner.py:68-77 | the sole producer of a key is the one element of its producer set, both directions |
| Requests.Request.ErrorsExcludePlans | src/redforge/planning/planner.py:68-88 | a missing or ambiguous producer of a demanded key, a cycle in the closure, and a plan exclude each other |
| Planning.Expansion.ProducerFor | src/redforge/planning/planner.py:68-77 | returns the sole producer, and fails exactly when there is none, with an error that names the true producers |
| Planning.Expansion.Visit | src/redforge/planning/planner.py:79-95 | the depth-first search keeps: open calls form a dependency path, everything completed is settled, selected is completed or open and reachable; it terminates on the number of unselected capabilities; an error it raises is a real cycle or a demanded key without sole producer |
| Planning.Expansion.VisitNew | src/redforge/planning/planner.py:89-95 | opening, visiting and closing a capability keeps the same invariants and leaves it completed, with fewer left to select |
| Planning.Expansion.Close | src/redforge/planning/planner.py:94-95 | closing restores the open calls and completes the capability, after everything it needs |
| Planning.Expansion.VisitRequirements | src/redforge/planning/planner.py:91-93 | after the loop every unavailable requirement has a sole producer that is completed, and the open calls are unchanged |
| Planning.ExecutionPlanner.Expand | src/redforge/planning/planner.py:97-99 | after all goals: every goal is available or its sole producer completed; otherwise a justified error |
| Planning.ExecutionPlanner.Plan | src/redforge/planning/planner.py:48-115 | a plan is returned exactly for plannable requests (goals given, sole producers for every demanded key, no cycle); it is the plan of the request, contains exactly the reachable capabilities in a topological order of their dependencies, and is accepted by the plan constructor; every error is justified; the cycle and producer errors of the second phase and the constructor errors are unreachable |
| Planning.OnlyCyclesFail | src/redforge/planning/planner.py:79-95 | when every demanded state has one producer, planning fails exactly when the closure is cyclic, and the reported path is a real cycle |
| Planning.PlanIsLeastOrder | src/redforge/planning/planner.py:117-153 | the steps of a plan, whose order is topological by the contract of Plan, are in the lexicographically least topological order of the reachable capabilities |
| Planning.PlanAccepted | src/redforge/planning/models.py:116-151 | the plan assembled from a finished expansion satisfies the whole constructor check and contains exactly the reachable capabilities |
| Planning.PlanContents | src/redforge/planning/planner.py:101-115 | the goals and the available state of a plan are those of the request, in order, and each step has its position and what the registered definition needs and offers |
| Finishing.PathDescends | src/redforge/planning/planner.py:89-95 | finishing times fall along every dependency path, so a finished closure has no cycle |
| Finishing.FinishedIsPlannable | src/redforge/planning/planner.py:79-99 | an expansion that finished proves the request plannable |
| Finishing.FinishedIsSelection | src/redforge/planning/planner.py:79-99 | what was completed is exactly what is reachable from the goals |
| Finishing.SupplierWithin | src/redforge/planning/planner.py:155-172 | inside the selection every needed key has exactly the producer it has in the registry |
| Finishing.FinishRanksGraph | src/redforge/planning/planner.py:117-136 | finishing times rank the dependency graph of the selection |
| TopologicalOrders.SingleSelectedProducer | src/redforge/planning/planner.py:155-172 | the sole selected producer, or the missing or ambiguous error with the sorted names |
| TopologicalOrders.BuildDependencies | src/redforge/planning/planner.py:122-136 | the two dictionaries are the dependency graph and its inverse, whatever the iteration order; it fails exactly when some need has no sole selected producer |
| TopologicalOrders.EmitInOrder | src/redforge/planning/planner.py:138-147 | the heap loop emits the greedy least-ready-first order |
| TopologicalOrders.Discard | src/redforge/planning/planner.py:144-147 | after discarding an emitted name the heap holds exactly the newly complete ready set, each name once |
| TopologicalOrders.TopologicalOrder | src/redforge/planning/planner.py:117-153 | returns the greedy order exactly when it is topological; otherwise a cycle error naming the least name left over |
| Kahn.GreedyAdmissible | src/redforge/planning/planner.py:138-147 | every emitted name comes once and after all its dependencies |
| Kahn.GreedyLeast | src/redforge/planning/planner.py:138-147 | whenever any completing order exists the heap loop completes, with an order not above any completing order |
| Kahn.LeastTopologicalOrder | src/redforge/planning/planner.py:117-153 | the emitted order is the unique lexicographically least topological order |
| Kahn.RankedCompletes | src/redforge/planning/planner.py:138-153 | an acyclic (ranked) graph is emitted completely |
| Kahn.LengthTest | src/redforge/planning/planner.py:148-152 | the length comparison detects exactly the graphs that were not completed |
| Plans.CheckPlan | src/redforge/planning/models.py:116-151 | accepts exactly the plans whose shape, step requirements and goals hold; names the first unsatisfied step |
| Plans.StateBeforeIs | src/redforge/planning/models.py:143-149 | the accumulated state before a step is what was available plus what earlier steps provide, and nothing else |
| Building.Validate | src/redforge/planning/builder.py:60-124 | accepts exactly constructor-valid plans that agree with the registry step by step; an error names the first step that is unknown or disagrees; the dependency-order and goal errors are unreachable; yields each step's outputs as contract |
| Building.MatchSteps | src/redforge/planning/builder.py:80-124 | the loop over the steps of an accepted plan stops at the first that is unknown or disagrees with the registry, and otherwise yields the outputs of every step |
| Building.PlannedStepsMatch | src/redforge/planning/builder.py:99-118 | every step of a plan made over a registry agrees with that registry |
| Building.ContractOfStep | src/redforge/planning/builder.py:117 | with distinct steps each step's contract is its own outputs |
| Pipelines.Build | src/redforge/planning/builder.py:38-58 | succeeds exactly when the plan validates and every step has a factory making it; the pipeline then holds the steps in order with their contracts, and adding them is never refused |
| Pipelines.CheckFactories | src/redforge/planning/builder.py:40-53 | no error exactly when every step has a factory that makes it; otherwise the error names a planned step and what is wrong with its factory |
| Preparation.SameSupplier | src/redforge/application/scan_config.py:239-244 | removing definitions no plan step uses keeps the sole producer of every demanded key |
| Preparation.ReplanIsIdentical | src/redforge/application/scan_config.py:222-252 | if the full plan exists and uses no disabled capability, planning over the filtered registry succeeds with the identical plan |
| Preparation.PrepareScan | src/redforge/application/scan_config.py:204-257 | succeeds exactly when disabled ids are registered, the outputs are plannable and no reachable capability is disabled; the result is the full-registry plan; the second planning failure is unreachable |
| Runs.AggregateIsMaximum | src/redforge/runtime/pipeline.py:46-48 | the aggregate status is the most severe status in the history |
| Runs.UsableJudgement | src/redforge/runtime/pipeline.py:379-425 | a usable outcome is the capability's own result, with a declared, distinct, well-typed batch within the limits, and the deadline was open |
| Runs.NormalizedBatch | src/redforge/runtime/pipeline.py:64-102 | normalisation yields distinct declared keys, a legacy write only without contract, and nothing for stopping results |
| Runs.HistoryShape | src/redforge/runtime/pipeline.py:324-482 | over every run: all history entries but the last are SUCCESS or PARTIAL and executed, names follow the entries, an unexecuted entry is last and FAILURE, a run that did not stop executed everything |
| Runs.ContextIsReplay | src/redforge/runtime/pipeline.py:427-455 | the context after each history entry is the context before it updated with exactly the batch that entry accepted |
| Runs.AcceptedBatchPublishable | src/redforge/runtime/pipeline.py:438-452 | the batch of a usable result always passes publish_many, so its failure branch is unreachable |
| Runs.ExpiryPublishesNothing | src/redforge/runtime/pipeline.py:333-365 | a step whose deadline check saw expiry leaves the context as it was and ends the run |
| Runs.ContextConfined | src/redforge/runtime/execution_policy.py:226-259 | every reachable context changes only declared keys and keeps every limited collection within its limit |
| Publications.CheckedBefore | src/redforge/runtime/pipeline.py:333-365 | an exception escapes exactly for an unreadable clock before a capability; a passed deadline there ends the run with a policy failure and without the call |
| Publications.NothingOffered | src/redforge/runtime/pipeline.py:383-412 | an exception, an answer that is no result and a result that breaks the publication rules are each replaced by their own error; a stopping result is kept as it is |
| Publications.OfferRefused | src/redforge/runtime/pipeline.py:414-436 | an offered batch with an ill-typed value or an unreadable clock is an error, one after the deadline a policy failure |
| Publications.OfferOverLimit | src/redforge/runtime/execution_policy.py:226-259 | the first value over its limit is reported with its key, its size and the limit |
| Publications.OfferPublished | src/redforge/runtime/pipeline.py:86-94 | explicit publications of distinct declared keys without data, data alone for the one key of a contract, and data without contract under the name of the capability, once admitted, in time and within the limits, all lie under their keys afterwards, and nothing else has changed |
| Publications.KeptExactly | src/redforge/runtime/pipeline.py:379-436 | a capability's own result is kept exactly when it stops the run with nothing to publish or everything it offers may be published |
| Publications.RunPublishes | src/redforge/runtime/pipeline.py:324-482 | over every run: after a usable result the context holds all it published and is otherwise the context before, after any other it is the context before and the run ends |
| Publications.AggregateExactly | src/redforge/runtime/pipeline.py:46-48 | the status of a run is an error exactly when some result is, a failure or error exactly when some result stops, and success exactly when every result is |
| Runs.UpdatedKeys | src/redforge/sdk/context.py:74-77 | a batch changes exactly its own keys |
| Runs.UpdatedHolds | src/redforge/sdk/context.py:56-77 | every value of a distinct batch lands under its own key |
| Runtime.OverLimit | src/redforge/runtime/execution_policy.py:226-259 | raises exactly when some publication exceeds its limit |
| Pipelines.Context.PublishMany | src/redforge/sdk/context.py:56-77 | all or nothing: the state is updated with the whole batch exactly when the batch is distinct and well typed |
| Pipelines.Pipeline.Configure | src/redforge/runtime/pipeline.py:174-230 | contracts, single keys or the defaults, never two of them; refused exactly for a malformed identity, an unknown key, or an empty or repeating contract; otherwise every contract is stored with its keys sorted |
| Pipelines.Pipeline.Add | src/redforge/runtime/pipeline.py:232-278 | the exact condition under which an entry is accepted, and what the entries and contracts are afterwards, also when it is refused |
| Pipelines.Pipeline.Run | src/redforge/runtime/pipeline.py:280-482 | the loop realises the run: history, executed names, last result, aggregate and final context; an exception escapes only through an invalid clock value before a capability |
| Pipelines.ExecutedIsPrefix | src/redforge/runtime/pipeline.py:473-480 | the executed names are a prefix of the execution order, short of the history by at most one trailing entry |
| Pipelines.PlannedEntriesDeclared | src/redforge/planning/builder.py:95-118 | every entry of a built pipeline has its own step's outputs as contract |
| Pipelines.PlannedRunConfined | src/redforge/runtime/pipeline.py:324-482 | running the pipeline of an accepted plan changes only state the plan provides, respects the limits, and never takes the legacy write |
| Linkage.LinkedStaysInside | src/redforge/capabilities/asset_intelligence.py:37-55 | a set that swallows every added set it meets contains every chain it meets |
| Linkage.LinkedIgnoresOrder | src/redforge/capabilities/asset_intelligence.py:37-55 | linkage depends on the added sets, not on their order |
| IdentityIndexes.IdentityIndex.Add | src/redforge/capabilities/asset_intelligence.py:37-55 | keeps: disjoint builders, every alias mapped to its one builder, added sets together, only linked aliases together; the returned builder holds the added aliases |
| IdentityIndexes.IdentityIndex.Merge | src/redforge/capabilities/asset_intelligence.py:60-66 | destination becomes the union, aliases are redirected, exactly the source object leaves the list |
| IdentityIndexes.IdentityIndex.RemoveEqual | src/redforge/capabilities/asset_intelligence.py:66 | removal by value equality removes exactly the given object |
| IdentityIndexes.OnlySourceEquals | src/redforge/capabilities/asset_intelligence.py:60-66 | at that moment no other live builder equals the source, not even the already widened destination |
| IdentityIndexes.IdentityIndex.Find | src/redforge/capabilities/asset_intelligence.py:57-58 | finds a builder exactly for aliases that were added |
| Identity.SameBuilderIffLinked | src/redforge/capabilities/asset_intelligence.py:37-66 | two aliases share a builder exactly when they are linked through the added sets |
| Assets.IdentifiersDistinct | src/redforge/capabilities/asset_intelligence.py:147-183 | asset identifiers are pairwise distinct |
| Assets.EachHostInOneAsset | src/redforge/capabilities/asset_intelligence.py:118-126 | each host with an alias appears in exactly one asset |
| Assets.EachEndpointInOneAsset | src/redforge/capabilities/asset_intelligence.py:133-138 | each endpoint with an alias appears in exactly one asset |
| Assets.DescriptionUnique | src/redforge/capabilities/asset_intelligence.py:109-183 | the assets depend on the knowledge only, not on the order or repetition of inputs or on set iteration |
| AssetIntelligence.BuildIdentityIndex | src/redforge/capabilities/asset_intelligence.py:109-145 | the index has been given exactly the alias sets, hosts and endpoints of the inputs |
| AssetIntelligence.BuildAssets | src/redforge/capabilities/asset_intelligence.py:147-183 | one asset a builder; fails exactly when some added alias set was empty |
| AssetIntelligence.AssociateTechnologies | src/redforge/capabilities/asset_intelligence.py:185-221 | exactly the technologies with a source host are associated, with the asset owning that host, each association once and by sort key; the rest are counted |
| AssetIntelligence.Execute | src/redforge/capabilities/asset_intelligence.py:72-107 | assets are the linked components ordered by identity, associations are exact and ordered, and the run fails exactly for a host without name and address |
| Ownership.HostHeld | src/redforge/capabilities/asset_intelligence.py:118-126 | every host with an address or a hostname is in exactly one asset, which lists all its normalized addresses and its normalized hostname; whatever lists one of them is that asset |
| Ownership.SharedName | src/redforge/capabilities/asset_intelligence.py:118-126 | two hosts that share a normalized address or hostname are in one asset |
| Ownership.EndpointHeld | src/redforge/capabilities/asset_intelligence.py:133-138 | an endpoint is in exactly the asset that lists its normalized host, and in none when that is empty |
| Ownership.SubdomainHeld | src/redforge/capabilities/asset_intelligence.py:128-131 | the normalized name of a subdomain is listed by some asset |
| Ownership.TechnologyAssociated | src/redforge/capabilities/asset_intelligence.py:185-200 | a technology whose source has a host is associated with the asset that lists the host and no other; any other technology with none |
| Ownership.OnlyHostsMerge | src/redforge/capabilities/asset_intelligence.py:109-145 | an asset lists only names that were given, and any two of them are connected by a chain of hosts that share a name with the next |
| Ownership.AssetDescribed | src/redforge/capabilities/asset_intelligence.py:147-183 | the asset is named by its least name, or without one its least address; its identifier, type and order of aliases follow |
| Ownership.UnplacedCounted | src/redforge/capabilities/asset_intelligence.py:193-200 | exactly the technologies whose source has no host are counted as unassociated |
| Findings.LeastReferenceExists | src/redforge/domain/finding_correlation.py:818-821 | concrete references have a least element |
| Findings.Selected | src/redforge/domain/finding_correlation.py:818-821 | the selected reference is the least concrete one, and absent only when there is none |
| Findings.CompareSymmetric | src/redforge/domain/finding_correlation.py:589-746 | comparison is symmetric in its two findings |
| Findings.MergesExactly | src/redforge/domain/finding_correlation.py:589-746 | findings merge automatically exactly when their subjects and references are compatible and they share the fingerprint or the selected reference |
| Findings.NoMatchIffBlocked | src/redforge/domain/finding_correlation.py:242-247 | a pair fails to match exactly when some conflict blocks it, so strength alone decides about merging |
| Findings.MergedDisagreement | src/redforge/domain/finding_correlation.py:672-705 | merging findings disagree in nothing but their classification, recorded without blocking, and name why they match |
| Comparisons.LeadIsAnchor | src/redforge/domain/finding_correlation.py:818-821 | the selected reference is the least CVE, without one the least GHSA, without both the least OSV |
| Comparisons.MergesWhenMergeable | src/redforge/domain/finding_correlation.py:589-746 | findings merge exactly when asset, references, endpoint and technology do not contradict and they share the fingerprint or the selected reference |
| Comparisons.StrengthExactly | src/redforge/domain/finding_correlation.py:663-746 | when a match is exact, strong, possible or none, in terms of what the findings carry |
| Comparisons.PairExactly | src/redforge/domain/finding_correlation.py:786-799 | a decision is about the two fingerprints |
| Comparisons.ConflictsExactly | src/redforge/domain/finding_correlation.py:603-705 | which conflict is recorded when, and which of them block |
| Comparisons.ReasonsExactly | src/redforge/domain/finding_correlation.py:603-746 | when each of the sixteen reasons is given |
| Grouping.GroupsPartition | src/redforge/domain/finding_correlation.py:757-777 | groups partition the distinct findings, and every pair in a group merges |
| Anchors.IntersectReferences | src/redforge/domain/finding_correlation.py:868-870 | the loop computes exactly the references every finding carries |
| Anchors.AnchorForRaises | src/redforge/domain/finding_correlation.py:866-896 | anchor selection raises exactly when findings share a reference but select different ones |
| Anchors.GroupShares | src/redforge/domain/finding_correlation.py:589-746 | two findings of a group share the selected reference and are compatible |
| Anchors.GroupAnchored | src/redforge/domain/finding_correlation.py:866-896 | for unique fingerprints every group has a stable anchor, at most one endpoint and technology, and lacks a common reference only as a singleton |
| Correlation.SortRecords | src/redforge/domain/finding_correlation.py:549-557 | the distinct records in key order, ties in any order |
| Correlation.OrderedUnique | src/redforge/domain/finding_correlation.py:512-557 | records of different fingerprints sort in one way only |
| Correlation.Strongest | src/redforge/domain/finding_correlation.py:855-862 | a maximum that occurs |
| Correlation.EvidenceCollected | src/redforge/domain/finding_correlation.py:824-862 | the evidence of a group is exactly what its findings carry |
| Correlation.AggregatedEach | src/redforge/domain/finding_correlation.py:773-776 | one finding a group, in order, each the aggregate of its group |
| Correlation.StrongestEvidence | src/redforge/domain/finding_correlation.py:855-862 | the strongest ranks bound every piece of evidence and some piece attains each |
| Correlation.FailedGroup | src/redforge/domain/finding_correlation.py:773-776 | a failure of aggregation is the error of one of the groups |
| Correlation.ByIdentity | src/redforge/domain/finding_correlation.py:452-463 | one finding an identity, for exactly the identities that occur |
| Correlation.CandidateGroups | src/redforge/domain/finding_correlation.py:761-769 | the indices of exactly the groups whose every member merges with the record |
| Correlation.GroupRecords | src/redforge/domain/finding_correlation.py:759-773 | the greedy loop computes the specified groups |
| Correlation.UnmergedDecisions | src/redforge/domain/finding_correlation.py:778-782 | the decisions of exactly the pairs that stay apart |
| Correlation.IndexFindings | src/redforge/domain/finding_correlation.py:450-463 | fails exactly when two different findings carry one identity |
| Correlation.Group | src/redforge/domain/finding_correlation.py:757-783 | fails for more than 512 records; otherwise realises the canonical collection of the sorted records, with the first error raised |
| Correlated.OrderOfRecordsIrrelevant | src/redforge/domain/finding_correlation.py:549-557 | permuting fingerprint-unique records changes neither the order they are grouped in nor, with it, the result |
| Correlated.AggregationSucceeds | src/redforge/domain/finding_correlation.py:773-776 | aggregation of a collection fails only on the size caps, never for want of a stable anchor |
| Correlated.UnmergedCount | src/redforge/domain/finding_correlation.py:778-782 | n findings leave at most n(n-1)/2 unmerged decisions |
| Correlated.DecisionsWithinCap | src/redforge/domain/finding_correlation.py:36-40 | 512 findings leave at most 130,816 decisions, below the cap |
| Correlated.SourcesPartition | src/redforge/domain/finding_correlation.py:773-776 | every finding is a source of exactly one canonical finding, and nothing else is a source |
| Correlated.ReferencesRetained | src/redforge/domain/finding_correlation.py:838-842 | a canonical finding names exactly the references of its sources |
| Correlated.EvidenceRetained | src/redforge/domain/finding_correlation.py:843-862 | it keeps every summary, method and source of their evidence and is nowhere less confident |
| Correlated.StrengthAttained | src/redforge/domain/finding_correlation.py:855-862 | its confidence and quality occur in their evidence |
| Canonicals.UnmergedExactly | src/redforge/domain/finding_correlation.py:778-782 | a pair is reported as unmerged exactly when it is not mergeable, be it possible or contradictory, and every reported decision is the comparison of such a pair |
| Canonicals.PlacedExactly | src/redforge/domain/finding_correlation.py:759-773 | a finding joins the only group all of whose findings are mergeable with it, and otherwise starts a group |
| Canonicals.GroupsGrouped | src/redforge/domain/finding_correlation.py:757-777 | the groups of a collection are what the results about single groups ask for |
| Canonicals.ContentExactly | src/redforge/domain/finding_correlation.py:838-862 | sources, references, summaries, methods, provenance and severities of a canonical finding are exactly what its findings carry |
| Canonicals.StrengthIsGreatest | src/redforge/domain/finding_correlation.py:855-862 | its confidence and quality are the greatest of all its evidence |
| Canonicals.DisagreementsExactly | src/redforge/domain/finding_correlation.py:824-837 | it records a disagreement of classification exactly when two of its findings differ there, and no other |
| Canonicals.AnchorExactly | src/redforge/domain/finding_correlation.py:866-896 | it is anchored at the reference that leads all its findings, with the endpoint and the technology any of them names, or, without a reference, at the one finding itself |
| Canonicals.CapsExactly | src/redforge/domain/finding_correlation.py:36-40 | it is refused exactly above 4096 references, or 4096 findings and pieces of evidence, counted with repetition |
| Canonicals.SucceedsExactly | src/redforge/domain/finding_correlation.py:450-463 | a collection of at most 512 findings is correlated exactly when every group is within the caps and the anchors of the groups are different |
| Canonicals.ResultExactly | src/redforge/domain/finding_correlation.py:450-463 | the result holds exactly one canonical finding for each group, under its own anchor |
| Canonicals.EachReportedOnce | src/redforge/domain/finding_correlation.py:773-783 | every finding is a source of exactly one canonical finding of the result |
| CanonicalIdentities.GroupsAreClasses | src/redforge/domain/finding_correlation.py:757-773 | under agreement on presence and references the groups are exactly the classes of equal subjects |
| CanonicalIdentities.GroupsBySubject | src/redforge/domain/finding_correlation.py:757-773 | if findings of one asset and selected reference are pairwise compatible, the groups are exactly the classes of asset and selected reference |
| CanonicalIdentities.CorrelatesExactly | src/redforge/domain/finding_correlation.py:452-457 | under agreement on presence, correlation succeeds exactly when no two findings of one subject and selected reference contradict and every group is within the caps |
| CanonicalIdentities.CompatibleCorrelate | src/redforge/domain/finding_correlation.py:452-457 | under that condition, endpoints or technologies named on one side only included, nothing collides and correlation succeeds exactly when every group is within the caps |
| CanonicalIdentities.OneReferenceAgrees | src/redforge/domain/finding_correlation.py:802-815 | findings with at most one concrete reference never contradict inside a subject |
| CanonicalIdentities.ContradictionRejected | src/redforge/domain/finding_correlation.py:802-815 | a contradicting pair of one subject collides on one identity |
| Collisions.ContradictionAlwaysFails | src/redforge/domain/finding_correlation.py:802-815 | a contradicting pair of one fully named subject makes correlation fail whatever else the collection holds |
| Collisions.KeptApartThenRejected | src/redforge/domain/finding_correlation.py:810-814 | {CVE-1, GHSA-1} and {CVE-1, GHSA-2} on one endpoint are kept apart, anchored alike and rejected |
| Collisions.UnstableOnlyForEqualFingerprints | src/redforge/domain/finding_correlation.py:866-896 | grouping raises for want of an anchor only if two findings of one fingerprint share a concrete reference and select different ones |
| Collisions.EqualFingerprintsUnstable | src/redforge/domain/finding_correlation.py:879-884 | an instance: two findings of equal fingerprint that share GHSA-1 but select different references make grouping raise |
| Collisions.AmbiguousSubjectsCollide | src/redforge/domain/finding_correlation.py:768-772 | without agreement on presence, findings that would merge are kept apart and collide |
| Collections.CollectRecords | src/redforge/domain/finding_intelligence.py:653-672 | fails exactly when two different records carry one fingerprint; otherwise holds each record under its own |
| Collections.Correlate | src/redforge/domain/finding_correlation.py:748-755 | correlating a collection fails only for conflicting fingerprints, too many records, size caps or colliding identities |
| VulnerabilityIntelligence.GroupObservations | src/redforge/capabilities/vulnerability_intelligence.py:65-81 | each lookup groups exactly the technologies of its vendor, product and version |
| VulnerabilityIntelligence.Representative | src/redforge/capabilities/vulnerability_intelligence.py:91 | a least observation of the group |
| VulnerabilityIntelligence.AddRecords | src/redforge/capabilities/vulnerability_intelligence.py:155-173 | each accepted record adds its associations for every observation, and its vulnerability unless the identifier is known |
| VulnerabilityIntelligence.Execute | src/redforge/capabilities/vulnerability_intelligence.py:59-195 | errors exactly when some lookup is broken; otherwise the associations are exactly those the lookups support, each identifier has the vulnerability of its first record in the least lookup that found one, both are listed in order, and the status follows the failed lookups |
| VulnerabilityIntelligence.Publish | src/redforge/capabilities/vulnerability_intelligence.py:175-178 | vulnerabilities by identifier and associations by sort key, each once and none left out |
| Vulnerabilities.IntelligenceUnique | src/redforge/capabilities/vulnerability_intelligence.py:83-178 | the lookups determine the reported vulnerabilities and associations, whatever the provider answers |
| Lookups.AskingExactly | src/redforge/capabilities/vulnerability_intelligence.py:65-91 | for every product, version and vendor among the technologies with a name and a concrete version exactly one of them, of least sort key, is asked about |
| Lookups.LookUpExactly | src/redforge/capabilities/vulnerability_intelligence.py:197-236 | what is found, missed or broken, in terms of the two answers of the provider and of the one CPE name that fits |
| Lookups.AssociationsExactly | src/redforge/capabilities/vulnerability_intelligence.py:147-173 | the associations are exactly those of an observed technology with a record found for its product, neither rejected nor blank, with the CPE name and with high confidence exactly when a vendor is known |
| Lookups.GivesExactly | src/redforge/capabilities/vulnerability_intelligence.py:238-281 | what a record gives: nothing if rejected or blank, otherwise its stripped identifier, its severity or unknown, and its score if between 0 and 10 |
| Lookups.ReportedExactly | src/redforge/capabilities/vulnerability_intelligence.py:155-173 | every reported vulnerability is what the first record of its identifier gives, in the first lookup that has one, and every found record that is neither rejected nor blank is reported |
| Lookups.StatusExactly | src/redforge/capabilities/vulnerability_intelligence.py:394-399 | an error exactly when a question breaks; otherwise success, failure or partial as none, all or some of the lookups are missed |
| VulnerabilityIntelligence.AssociationsMatch | src/redforge/capabilities/vulnerability_intelligence.py:197-236 | no association without a qualifying candidate of the technology's own product, version and vendor; high confidence exactly when a vendor is named |
| KnowledgeGraphs.AssetNodes | src/redforge/capabilities/knowledge_graph.py:153-168 | one node for exactly the identifiers that are not blank, of a least asset of the identifier |
| KnowledgeGraphs.VulnerabilityNodes | src/redforge/capabilities/knowledge_graph.py:170-189 | one node for exactly the stripped identifiers that are not blank, of a least vulnerability of the identifier |
| KnowledgeGraphs.Update | src/redforge/capabilities/knowledge_graph.py:47-56 | table nodes replace whatever was indexed under their identifiers, everything else stays |
| KnowledgeGraphs.RelateTechnologies | src/redforge/capabilities/knowledge_graph.py:58-82 | one edge for exactly the associations of known assets; the others are counted, each as often as it is given |
| KnowledgeGraphs.RelateVulnerabilities | src/redforge/capabilities/knowledge_graph.py:84-119 | one edge for exactly the associations of known vulnerabilities with product identity; the others are counted, each as often as it is given |
| KnowledgeGraphs.ListNodes | src/redforge/capabilities/knowledge_graph.py:121 | every indexed node once, in the order of the identifiers |
| KnowledgeGraphs.ListEdges | src/redforge/capabilities/knowledge_graph.py:122 | every edge once, in the order of the sort key |
| KnowledgeGraphs.Execute | src/redforge/capabilities/knowledge_graph.py:29-129 | nodes, edges, their order and the skip count are those the relationships determine; PARTIAL exactly when something was skipped |
| Snapshots.EdgesExactly | src/redforge/capabilities/knowledge_graph.py:58-119 | the edges are exactly those of the associations of known assets, and of known vulnerabilities with a product that is not blank, with product and confidence |
| Snapshots.OmittedExactly | src/redforge/capabilities/knowledge_graph.py:68-106 | exactly the other associations are counted as skipped |
| Snapshots.NodesExactly | src/redforge/capabilities/knowledge_graph.py:47-115 | every node is that of a least asset or vulnerability of its identifier or of the technology of an edge |
| Snapshots.AssetListed | src/redforge/capabilities/knowledge_graph.py:153-168 | every asset that is not blank has its node, unless a vulnerability has taken its identifier |
| Snapshots.VulnerabilityListed | src/redforge/capabilities/knowledge_graph.py:170-189 | every vulnerability that is not blank has its node |
| Snapshots.TechnologyListed | src/redforge/capabilities/knowledge_graph.py:191-212 | every technology of an edge has a node of its identifier |
| Strings.TextOrder | src/redforge/capabilities/knowledge_graph.py:121 | texts compare by their first difference, and a prefix comes first |
| Strings.StripExactly | src/redforge/capabilities/knowledge_graph.py:180 | stripping takes away white space at both ends and nothing else |
| Integrity.GraphIsSound | src/redforge/capabilities/knowledge_graph.py:46-123 | from grounded inputs every edge joins nodes of the right kinds |
| Integrity.NothingOmitted | src/redforge/capabilities/knowledge_graph.py:58-119 | from grounded inputs no relationship is skipped |
| Integrity.NodeKinds | src/redforge/capabilities/knowledge_graph.py:160-211 | with prefixed asset identifiers the identifier of a node decides its kind |
| Integrity.TechnologyNodesFaithful | src/redforge/capabilities/knowledge_graph.py:191-212 | with an injective digest the node of an observation holds that very observation |
| Integrity.VulnerabilityNodesFaithful | src/redforge/capabilities/knowledge_graph.py:170-189 | the node of a reported vulnerability holds that very vulnerability |
| Integrity.JoinIsOfAssociations | src/redforge/capabilities/risk_intelligence.py:93-150 | the joined paths are exactly those of an observed technology and a vulnerability associated with that same technology |
| Integrity.MatchesAreAssociations | src/redforge/capabilities/risk_intelligence.py:105-113 | the match edges between two nodes are exactly the associations of that technology with that vulnerability |
| Integrity.ListedIsObserved | src/redforge/capabilities/risk_intelligence.py:115-163 | what is listed for a grounded graph is one assessment for each observed technology and vulnerability associated with it, made from that technology, that vulnerability and a most confident of their associations, and nothing else |
| Integrity.ReadModelsGrounded | src/redforge/capabilities/asset_intelligence.py:147-221 | the outputs of asset and vulnerability intelligence ground the graph |
| Integrity.Analyze | src/redforge/capabilities/risk_intelligence.py:60-175 | the four stages together, for all inputs and any provider: the assets describe the inputs, the associations are exactly the observed and the supported ones, the graph holds exactly those relationships and all its edges are valid, graph and risk stage report SUCCESS, and with an injective digest the list assesses exactly the observed technologies with their vulnerabilities, by priority |
| Assessments.RunListsExactly | src/redforge/capabilities/risk_intelligence.py:60-175 | for a whole run: one assessment for each observed technology and vulnerability reported for it, with the numbers of that technology, that vulnerability and a most confident of the associations between the two, and no other |
| Risk.CvssMonotone | src/redforge/capabilities/risk_intelligence.py:330-345 | of any two scores the higher contributes no less, exactly unless it is above 10, and so absent, while the lower one is valid and counts for something |
| Risk.ConfidenceBounds | src/redforge/capabilities/risk_intelligence.py:268-277 | the averaged confidence is between 0 and 100 |
| Risk.AssessAlwaysSucceeds | src/redforge/domain/risk_intelligence.py:126-146 | every assessment is accepted: priority is the vulnerability's alone and in 0..70, confidence in 0..100, completeness a multiple of 25 up to 100, the level unknown exactly without score and severity |
| Risk.AssessMonotone | src/redforge/capabilities/risk_intelligence.py:254-299 | more CVSS never means less priority or a lower level, whatever else differs |
| Risk.FallbackLevel | src/redforge/capabilities/risk_intelligence.py:48-54 | without a valid score the level carries the name of the severity |
| Risk.CvssLevel | src/redforge/domain/risk_intelligence.py:34-50 | with a valid score the exact score bounds of each level |
| Scoring.PriorityExactly | src/redforge/capabilities/risk_intelligence.py:301-345 | with a valid score the priority is seven times the score rounded to the nearest number, halves upwards; otherwise 0, 15, 35, 55 or 70 by severity |
| Scoring.ConfidenceExactly | src/redforge/capabilities/risk_intelligence.py:254-277 | the confidence is the average, rounded down, of 100 or 60 for the identity match and of the detection confidence, as far as they are known |
| Scoring.CompletenessExactly | src/redforge/capabilities/risk_intelligence.py:278-297 | a quarter for the path and for each of priority, identity and detection that is known |
| Scoring.LevelExactly | src/redforge/domain/risk_intelligence.py:34-50 | the level in steps of twenty points of priority, unknown without score and severity |
| Scoring.FactorsExactly | src/redforge/capabilities/risk_intelligence.py:219-247 | the factors that explain the priority, and when missing data is among them |
| RiskIntelligence.IndexNodes | src/redforge/capabilities/risk_intelligence.py:177-183 | for every identifier the first node that carries it |
| RiskIntelligence.Tabulate | src/redforge/capabilities/risk_intelligence.py:93-113 | the tables list exactly the valid edges; the invalid ones are counted |
| RiskPaths.PickMatch | src/redforge/capabilities/risk_intelligence.py:434-442 | a best match edge: most confidence, then least sort key |
| RiskPaths.AssessPaths | src/redforge/capabilities/risk_intelligence.py:115-150 | one assessment for exactly the tabulated paths, each by a best match edge |
| RiskPaths.Prioritize | src/redforge/capabilities/risk_intelligence.py:152-163 | every assessment once, by non-increasing priority |
| RiskPaths.Execute | src/redforge/capabilities/risk_intelligence.py:60-175 | the assessments are exactly the join of the valid edges, one a path, in order of priority; PARTIAL exactly when an edge is invalid |
| RiskPaths.MostConfident | src/redforge/capabilities/risk_intelligence.py:434-442 | no match edge of an assessed path that names a confidence gives it more confidence than the one used |
| Assessments.ListedExactly | src/redforge/capabilities/risk_intelligence.py:93-163 | over any graph: one assessment for exactly the paths of valid edges, of the entities of the nodes and by a match edge of most confidence and then least sort key, with its numbers; by priority and then by the order of paths |
| Assessments.PartialExactly | src/redforge/capabilities/risk_intelligence.py:93-107 | an edge is skipped exactly when it is neither from an asset to a technology nor from a technology to a vulnerability |
| Assessments.FirstNodeCounts | src/redforge/capabilities/risk_intelligence.py:177-183 | of several nodes of one identifier the first counts |
| Nvd.GetPaginatedItems | src/redforge/adapters/nvd.py:188-232 | the loop realises the specified fetch; requested start indices begin at zero, strictly increase and number at most the page limit, against any server |
| Pagination.FetchedExactly | src/redforge/adapters/nvd.py:188-232 | against any server: which requests are made, what ends them, with which of the four errors or with the objects of all pages read, in order |
| Pagination.ObjectsOne | src/redforge/adapters/nvd.py:205-211 | an item counts exactly when it is an object |
| Nvd.FetchesPrefix | src/redforge/adapters/nvd.py:188-232 | against any server of contiguous pages, empty ones included, the fetch returns the list up to where it stops when the pages read fit the limit, and raises for too many pages otherwise |
| Nvd.TruncatesExactly | src/redforge/adapters/nvd.py:188-232 | against any such server of a list of objects a fetch that succeeds returns the whole list exactly when no page within the limit is empty before the end; the only error is too many pages |
| Nvd.FetchesEverything | src/redforge/adapters/nvd.py:188-232 | when no page is empty before the end the whole list is returned once and in order exactly when its pages fit the limit; otherwise it raises |
| Nvd.FetchesWithinLimit | src/redforge/adapters/nvd.py:188-232 | with pages of one size the deciding number is max(1, ceil(total / size)) |
| Nvd.CeilingClosed | src/redforge/adapters/nvd.py:197 | that number is the rounded-up quotient, and one for an empty list |
| Nvd.EmptyPageTruncates | src/redforge/adapters/nvd.py:224-225 | an instance: a server whose first page is empty, contiguous otherwise, yields an empty list without an error |
| Cpe.SplitCpe | src/redforge/adapters/nvd.py:447-461 | the text between unescaped colons, if there are thirteen parts with the right prefix |
| Cpe.DecodeComponent | src/redforge/adapters/nvd.py:463-477 | decodes percent escapes and then removes one level of backslashes |
| Cpe.SplitJoin | src/redforge/adapters/nvd.py:447-461 | splitting undoes joining of components without open separators |
| Cpe.JoinSplit | src/redforge/adapters/nvd.py:447-461 | joining undoes splitting, for every string |
| Cpe.DecodesExactly | src/redforge/adapters/nvd.py:463-477 | decoding undoes binding exactly for the texts without a percent sign before two unquoted hexadecimal digits; the others come out shorter |
| Cpe.AsciiDecodes | src/redforge/adapters/nvd.py:463-464 | the percent escape of an ASCII character, in capitals or small letters, is read as that character |
| Cpe.HighDecodes | src/redforge/adapters/nvd.py:463-464 | successive escapes of bytes from 128 upwards are decoded together |
| Cpe.UnescapeEnds | src/redforge/adapters/nvd.py:475-476 | a single backslash at the end stays |
| Cpe.PercentIsLost | src/redforge/adapters/nvd.py:464 | an instance: the text %3A, bound with its percent sign quoted, is read as a colon |
| Cpe.CpeRoundTrip | src/redforge/adapters/nvd.py:447-477 | a name bound from eleven texts splits into thirteen components, and each decodes to its text exactly when that is not percent coded |
| Nuclei.ParseJsonl | src/redforge/adapters/nuclei/provider.py:254-317 | realises the fold over the non-blank lines, with the record limit and the discarded last line |
| Nuclei.FoldLines | src/redforge/adapters/nuclei/provider.py:276-317 | the loop over the lines computes the specified fold |
| Nuclei.NonBlankCounted | src/redforge/adapters/nuclei/provider.py:264-317 | none of the lines that are read is blank, so the four counts add up to the total reported |
| Nuclei.ProviderSeparates | src/redforge/adapters/nuclei/provider.py:165-252 | two findings this provider builds under one fingerprint and one sort key are the same finding |
| Nuclei.ReadKeepsLeast | src/redforge/adapters/nuclei/provider.py:293-310 | for each fingerprint a finding of least key is kept |
| Nuclei.LinesAccounted | src/redforge/adapters/nuclei/provider.py:276-317 | garbage, unassociated, duplicates and kept findings add up to the non-blank lines; malformed counts the garbage and at most the duplicates besides |
| Nuclei.OrderOfLinesIrrelevant | src/redforge/adapters/nuclei/provider.py:242-317 | permuting the raw lines changes neither the kept findings nor the counts of duplicates and unassociated findings |
| Nuclei.KeptFindingsCollect | src/redforge/adapters/nuclei/provider.py:311-317 | the kept findings form a collection that is accepted |
| Detections.WrittenExactly | src/redforge/adapters/nuclei/provider.py:165-240 | what each raw line is taken for, and the finding that a detection at an approved endpoint is written down as |
| Detections.CountedExactly | src/redforge/adapters/nuclei/provider.py:264-317 | what is counted as unassociated, malformed, duplicate and kept, in numbers of raw lines |
| Detections.KeptExactly | src/redforge/adapters/nuclei/provider.py:242-310 | for every fingerprint of an approved detection exactly one finding is kept, written for one of them and above none by folded title, title, severity and record identity |
| Detections.NonBlankParts | src/redforge/adapters/nuclei/provider.py:267 | the lines read are those that are not white space, each as often as it occurs and in order |
| Detections.NonBlankOne | src/redforge/adapters/nuclei/provider.py:267 | a line is read exactly when it is not white space |
| Nuclei.MalformedCount | src/redforge/adapters/nuclei/provider.py:293-310 | when no finding beaten by another of its fingerprint occurs twice, malformed counts the garbage and each of them once |
| Nuclei.StableExactly | src/redforge/adapters/nuclei/provider.py:302-309 | the malformed count is the same for every order of the lines exactly when no finding beaten by another of its fingerprint occurs twice |
| Nuclei.ProviderStableExactly | src/redforge/adapters/nuclei/provider.py:242-317 | so for the raw lines of this provider, without any condition on them |
| Nuclei.MalformedDependsOnOrder | src/redforge/adapters/nuclei/provider.py:302-309 | an instance: a beaten finding given twice counts once or twice, as the order has it |
| Urls.FirstOf | src/redforge/domain/http_probe.py:12-15 | the position of the first of some characters |
| Urls.ShowToNat | src/redforge/domain/http_probe.py:69-82 | decimal text reads back as the number it shows |
| Urls.NetlocSplits | src/redforge/domain/http_probe.py:85-109 | a serialized authority splits into its host and its port unless that is the default |
| Urls.TextNormalizes | src/redforge/domain/http_probe.py:27-73 | a canonical text normalizes to the URL it is the text of |
| Urls.NormalizeIsCanonical | src/redforge/domain/http_probe.py:27-73 | every normalized URL is canonical |
| Urls.NormalizeIdempotent | src/redforge/domain/http_probe.py:27-73 | normalization is idempotent |
| Hostnames.NameStays | src/redforge/domain/hostname.py:7-61 | a normalized name is well formed and normalized already |
| Hostnames.SpelledExactly | src/redforge/domain/hostname.py:28-53 | a name is valid exactly when at least two labels of 1 to 63 letters, digits and inner hyphens spell it within 253 characters |
| Hostnames.NamedExactly | src/redforge/domain/hostname.py:7-61 | a text normalizes to its characters in lower case, without one trailing dot, exactly when that is a valid name |
| Hostnames.CaseIgnored | src/redforge/domain/hostname.py:20 | names that differ only in the case of letters are one name |
| Hostnames.RecognisedExactly | src/redforge/domain/http_probe.py:76-82 | a host is an address where it reads as one, and otherwise a name that is no address |
| Hostnames.DnsNameIdempotent | src/redforge/domain/hostname.py:7-61 | normalization of DNS names is idempotent |
| Hostnames.RecognitionLawful | src/redforge/domain/http_probe.py:76-82 | recognition by addresses and these names satisfies every law the URL results ask for |
| Hostnames.UrlsNormalizeOnce | src/redforge/domain/http_probe.py:27-82 | URL normalization is idempotent with the repository's own names |
| Urls.TextInjective | src/redforge/domain/http_probe.py:62-68 | canonical texts identify URLs |
| UrlGrammar.ReadsExactly | src/redforge/domain/http_probe.py:12-109 | a text normalizes to a URL exactly when it reads as that URL: scheme HTTP in any case, a recognised host, in brackets or without colon, a decimal port in range or the default, path and query kept; no user, no fragment, nothing invisible |
| UrlGrammar.LeadingZeros | src/redforge/domain/http_probe.py:97-109 | a port may be written with leading zeros |
| UrlGrammar.ShownPlainly | src/redforge/domain/http_probe.py:62-66 | and is written without them |
| AffectedEndpoints.MadeIsCanonical | src/redforge/domain/finding_intelligence.py:143-173 | every constructed endpoint has a canonical URL |
| AffectedEndpoints.RoundTrip | src/redforge/domain/finding_intelligence.py:143-193 | a constructed endpoint is recovered from its canonical URL exactly when its path starts with a slash and is within the length limit |
| AffectedEndpoints.HttpRoundTrip | src/redforge/domain/finding_intelligence.py:143-193 | an endpoint constructed with scheme http or https keeps its path and is recovered |
| AffectedEndpoints.MadeExactly | src/redforge/domain/finding_intelligence.py:143-173 | when an endpoint of scheme http or https can be constructed, and what it is |
| AffectedEndpoints.FromExactly | src/redforge/domain/finding_intelligence.py:175-186 | which URLs give an endpoint: those whose path is left out, or starts with a slash and is within the limit |
| AffectedEndpoints.SchemeCapturesHost | src/redforge/domain/finding_intelligence.py:144-173 | a scheme text that contains a host yields an endpoint of that host which is not recovered |
| AffectedEndpoints.HazardIsReal | src/redforge/domain/finding_intelligence.py:144-173 | with the repository's own recognition of names such an endpoint exists |
| Crawl.FoundIsCanonical | src/redforge/adapters/katana.py:215-242 | what the crawler finds is in scope, canonical, and splits into the parts it was joined from |
| Crawl.FoundUrl | src/redforge/adapters/technology_detection.py:130-162 | technology detection addresses it by its canonical URL, and refuses exactly when that is too long |
| Crawl.CrawlRoundTrip | src/redforge/adapters/katana.py:215-242 | crawling the URL that technology detection makes of a crawled endpoint finds the same endpoint |
| Crawl.CrawledExactly | src/redforge/adapters/katana.py:215-242 | when a crawled URL is rejected, out of scope or found, and as what |
| Crawl.AddressedExactly | src/redforge/adapters/technology_detection.py:130-162 | which endpoints have an address, and which |

## Left out

- Subprocesses, sockets, HTTP transport, retries, sleeping and temporary files: the model takes responses and clock readings as inputs.
- Command line, rendering, diagnostics, observability and configuration loading: presentation with easy claims only.
- Vulnerability enrichment, the subfinder and httpx readers, and the remaining parsing of Katana and WhatWeb: siblings of the modelled fold.
- Runtime type guards, messages, explanations and evidence strings: carried by types or without effect on the results.
- Capabilities that write to the context while they run: a capability is modelled by its answer only.
- The depth limit of the host language on the recursive expansion.
- The internal layout of the heap: it is a multiset from which the least name is taken.
- Floating-point rounding of CVSS: scores are reals.
- Evidence tuples of edges and assessments, and metadata counters other than those a status depends on.
- Unicode white space and non-ASCII lower case in URLs: visible ASCII and `A-Z` only.
- International host names: labels are ASCII, which IDNA encoding leaves as they are; other names are refused here.
- Integrity.Analyze: an error of vulnerability intelligence is passed on as empty knowledge, the graph's default, rather than as a stopped pipeline.
- Sort keys of assets, findings, technologies, associations, edges and assessment paths: arbitrary functions; where ties matter the condition is stated.
- Raw bytes in CPE components: percent escapes from 128 upwards are decoded by an arbitrary function that yields something, no longer than the bytes and without ASCII.
- AssetIntelligence.BuildAssets: does not order the hosts and endpoints inside an asset, which are sets here; their sort keys ignore fields, so ties follow set iteration.
- AssetIntelligence.Execute: likewise leaves the order of hosts and endpoints inside an asset open.
- KnowledgeGraphs.RelateTechnologies: leaves open which of two technologies of one digest is kept, which only the order of the associations decides.
- CanonicalIdentities.CorrelatesExactly: asks for agreement on presence. Without it, `CanonicalIdentities.CompatibleCorrelate` gives success whenever nothing contradicts and `Collisions.ContradictionAlwaysFails` failure for a contradiction of fully named subjects; what lies between depends on the order of fingerprints.
