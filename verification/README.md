# Igniter core, modelled in Dafny

Igniter runs the two sides of staking on the Pocket network.

- **The provider side** manages operator keys. It reconciles each key with the supplier the chain reports and remediates suppliers that were staked without services. It allocates keys to stake requests and builds the service configuration (endpoints and revenue shares) a supplier is staked with. It also publishes a status document and keeps its delegator list in sync with a published list.
- **The demand side (middleman)** offers stake distributions over providers and records stake transactions. A workflow submits, waits for, verifies and follows up each transaction, and a table records the staked nodes.

This project models the decision logic of those components and proves what they promise. It has one Dafny module per source component:

| module | component |
|---|---|
| `Common` | Option, sums, first-occurrence de-duplication |
| `Strings` | decimal printing and parsing, JavaScript white space and `trim`, splitting on runs of separators, ASCII lower case, string order |
| `ProviderModel` | provider records: keys, suppliers, address groups, partial key updates |
| `RemediationHistory` | a key's remediation history: find, replace-or-append and remove by reason |
| `SupplierActivities` | `upsertSupplierStatus`, `remediateSupplier` and the key table they write through |
| `ServiceConfig` | RPC-type maps, `{placeholder}` URL interpolation, active services at a height, expected services and revenue shares |
| `KeyAllocation` | slot expansion, key reuse and creation, supplier assembly, the bulk key transitions |
| `TransactionWorkflow` | the `ExecuteTransaction` workflow over a store of transactions |
| `NodesDal` | the node table and its queries and writes |
| `StakeOffers` | provider and group eligibility, the greedy stake distribution, the stake transaction record, the memo's canonical order |
| `DelegatorSync` | the merge of the published delegator list into the delegator table |
| `StatusRoute` | `stripAuditFields`, unique domains, and fee, fee type and stakers of the status response |
| `Shares`, `Duration`, `UnstakeStages`, `PoktCrypto`, `ActionUtils`, `RewardAddressForm` | the small helpers: share averages, duration text, stage predicates, address validators and normalisation, action results, the reward-address form |

Code that updates state in place is modelled as classes with methods. This covers the key table, the node table, the transaction store and the delegator table. Loops in the source are modelled as methods with loops, each proved against a specification function. Pure code is modelled as functions and lemmas.

Chain reads, database reads, clocks and foreign functions become parameters. This covers:

- the chain client's results and the stake transaction;
- the service-config builder, key generation and `pubkeyToAddress`;
- signature verification and the base64 decoding of keys;
- `Date.now()`, which is passed in as `now` in milliseconds.

Where a documentation comment and the code disagree, the model follows the code:

- `loadNodesInRange` includes `afterId`.
- `getSupplierActiveServices` can list a service id twice.
- `getNodesMinAndMax` yields empty bounds on an empty table.
- Each remediation check of `upsertSupplierStatus` starts again from the stored history. So when several checks fire, only the last one's entry is written.
- The state becomes `AttentionNeeded` exactly when the rebuilt history is non-empty and has no OwnerInitialStake entry.

## Model

| member | source | states |
|---|---|---|
| ProviderModel.ApplyUpdate | apps/provider-workflows/src/activities/index.ts:86-89 | a partial key update always overwrites the height and balance; each of the state, stake owner, stake amount, services, owner address and history is written when the update carries it and kept otherwise; the address, private key, delegator fields, delivery time and group never change |
| ProviderModel.ApplyUpdateIdempotent | apps/provider-workflows/src/activities/index.ts:86-89 | writing the same partial update twice leaves the row as writing it once |
| RemediationHistory.FindByReason | apps/provider-workflows/src/activities/index.ts:147-149 | finds an entry iff the history has one with the reason, and it is the first such entry |
| RemediationHistory.AddOrUpdate | apps/provider-workflows/src/activities/index.ts:164-171 | replace-or-append: the new entry is present; the length is unchanged when the reason was present, else one longer |
| RemediationHistory.AddOrUpdateContents | apps/provider-workflows/src/activities/index.ts:164-171 | entries of other reasons are exactly kept; with no entry for the reason the new one is appended at the end |
| RemediationHistory.AddOrUpdateKeepsUnique | apps/provider-workflows/src/activities/index.ts:164-171 | one entry per reason is preserved, and the entry for the new reason is the one written |
| RemediationHistory.AddOrUpdateHasReason | apps/provider-workflows/src/activities/index.ts:164-171 | afterwards a reason is present iff it is the new entry's reason or was present before |
| RemediationHistory.AddOrUpdateKeepsOtherFinds | apps/provider-workflows/src/activities/index.ts:147-149 | writing one reason leaves the entry found for every other reason unchanged |
| RemediationHistory.WithoutReason | apps/provider-workflows/src/activities/index.ts:366 | the filtered history holds exactly the entries of other reasons, never the removed reason, and stays unique |
| RemediationHistory.WithoutReasonIdempotent | apps/provider-workflows/src/activities/index.ts:466 | removing a reason twice equals removing it once |
| SupplierActivities.DetectRemediation | apps/provider-workflows/src/activities/index.ts:146-179 | the history written is the last finding to fire, replaced-or-appended into the stored history, or none when no check fires |
| SupplierActivities.BuildStatusUpdate | apps/provider-workflows/src/activities/index.ts:69-251 | the built update meets `StatusUpdateFor`: a missing key fails with KeyNotFound and a supplier without a stake coin with MissingStakeCoin; the update always carries the height and balance; without a supplier: Imported→Available, Unstaking→Unstaked, Delivered→MissingStake after 24 h, else unchanged; with a supplier, the state comes from `unstakeSessionEndHeight`, stake fields are copied exactly when Staked or Unstaking, and the owner is backfilled only from Imported; the last finding wins; AttentionNeeded iff the rebuilt history is non-empty and has no OwnerInitialStake entry |
| SupplierActivities.StatusUpdateDetermined | apps/provider-workflows/src/activities/index.ts:69-251 | two results that both meet `StatusUpdateFor` are equal: the promise determines the update |
| SupplierActivities.CooldownKeepsOwnerInitialStakeEntry | apps/provider-workflows/src/activities/index.ts:151-178 | inside the 10-minute cooldown the stored OwnerInitialStake entry is left as it was |
| SupplierActivities.DetectionKeepsUniqueReasons | apps/provider-workflows/src/activities/index.ts:162-236 | the rebuilt history keeps one entry per reason, and the entry found for the finding's reason is the finding |
| SupplierActivities.DecideRemediation | apps/provider-workflows/src/activities/index.ts:277-500 | missing key, group or supplier fail with their messages; an empty history, or no requested OwnerInitialStake entry, succeeds without acting; a configured supplier only loses its OwnerInitialStake entry; an empty service list is refused; otherwise the outcome is `StakeRemediation` of the unconfigured supplier with the services built for the key's group, owner and delegator share |
| SupplierActivities.StakeRemediation | apps/provider-workflows/src/activities/index.ts:386-500 | the stake is signed by the key, for the key as operator and the supplier's owner; `success` is the transaction's; a failure gives RemediationFailed and a success Staked; the OwnerInitialStake entry is cleared iff the stake succeeded and the re-read supplier is configured, else stamped with the time and the transaction's code and message; only the height, balance, state and history are written |
| SupplierActivities.AttemptReplacesEntry | apps/provider-workflows/src/activities/index.ts:438-446 | stamping the attempt replaces the OwnerInitialStake entry in place, keeping the length and every other finding |
| SupplierActivities.KeyStore.LoadKey | apps/provider-workflows/src/activities/index.ts:72 | the row stored for the address, or none when there is none |
| SupplierActivities.KeyStore.UpdateKey | apps/provider-workflows/src/activities/index.ts:254 | writes the update over the row iff it exists and its stored height is not above the given one; no other row changes |
| SupplierActivities.UpsertSupplierStatus | apps/provider-workflows/src/activities/index.ts:69-257 | the result meets `StatusUpdateFor` for the stored key, so it is exactly the update `BuildStatusUpdate` builds; it fails with KeyNotFound iff the key is unknown, and any failure (also MissingStakeCoin) writes nothing; an update is written under the height guard |
| SupplierActivities.RemediateSupplier | apps/provider-workflows/src/activities/index.ts:268-501 | the outcome is `DecideRemediation` for the stored key, turned into the failure "Failed while updating the supplier status." when its write is rejected; the decided update is written under the height guard, and a rejected write leaves the table unchanged |
| ServiceConfig.SchemeFollowsToken | packages/domain/src/provider/utils/suppliers.ts:7-34 | both maps are total: JSON_RPC/REST→https, GRPC→grpcs, WEBSOCKET→wss, and every other type gives https and json |
| ServiceConfig.TokenSeparatesNamedTypes | packages/domain/src/provider/utils/suppliers.ts:21-30 | the four named RPC types have distinct URL tokens |
| ServiceConfig.WordRun | packages/domain/src/provider/utils/suppliers.ts:49 | the length of the maximal `\w` run that starts the text |
| ServiceConfig.SubstitutionCases | packages/domain/src/provider/utils/suppliers.ts:44-51 | a placeholder becomes its own non-empty value; a name without one that `Object.prototype` has becomes that inherited member's text; otherwise the placeholder stays; the replacement is never empty |
| ServiceConfig.InterpolateLiteral | packages/domain/src/provider/utils/suppliers.ts:49-51 | text without `{` is copied unchanged |
| ServiceConfig.InterpolatePlaceholder | packages/domain/src/provider/utils/suppliers.ts:40-51 | `{word}` becomes its own value when non-empty; a name without an own value that every object inherits from `Object.prototype` becomes that member's text; any other name, or an empty value, stays verbatim; the rest is interpolated on its own |
| ServiceConfig.PlainEndpointUrl | packages/domain/src/provider/utils/suppliers.ts:40-52 | a set URL without placeholders is the result unchanged |
| ServiceConfig.ProtocolPlaceholder | packages/domain/src/provider/utils/suppliers.ts:41-50 | `{protocol}` always resolves to the endpoint type's URL token |
| ServiceConfig.ConstructorPlaceholder | packages/domain/src/provider/utils/suppliers.ts:40-51 | as written, `{constructor}` in an endpoint URL becomes the text of the `Object` constructor |
| ServiceConfig.KeptServices | packages/domain/src/provider/utils/suppliers.ts:81-91 | no more services than the supplier has, each a current service whose id no history entry schedules for removal |
| ServiceConfig.UpcomingServices | packages/domain/src/provider/utils/suppliers.ts:94-105 | at most one service per history entry |
| ServiceConfig.KeptServicesMembers | packages/domain/src/provider/utils/suppliers.ts:81-91 | a current service is kept iff no history entry schedules its id for removal after the height |
| ServiceConfig.UpcomingServicesMembers | packages/domain/src/provider/utils/suppliers.ts:94-105 | a history entry's service is added iff it activates after the height and was not removed at or before it |
| ServiceConfig.GetSupplierActiveServices | packages/domain/src/provider/utils/suppliers.ts:75-108 | the loop result is the kept current services followed by the upcoming ones |
| ServiceConfig.ActiveServicesMembers | packages/domain/src/provider/utils/suppliers.ts:81-105 | membership in the active list, in terms of the supplier's services and history |
| ServiceConfig.ActiveServicesCanRepeatServiceId | packages/domain/src/provider/utils/suppliers.ts:70-107 | as written, a kept service and a pending activation of the same id are both listed |
| ServiceConfig.FirstPerServiceId | packages/domain/src/provider/utils/suppliers.ts:70 | the result has each service id once, drawn from the input |
| ServiceConfig.FirstPerServiceIdCovers | packages/domain/src/provider/utils/suppliers.ts:70 | every input service id is represented |
| ServiceConfig.UniqueActiveServices | packages/domain/src/provider/utils/suppliers.ts:54-71 | the documented list: active services, each id once |
| ServiceConfig.UniqueActiveServicesCovers | packages/domain/src/provider/utils/suppliers.ts:54-71 | no active service id is lost by de-duplication |
| ServiceConfig.RuleShares | packages/domain/src/provider/utils/suppliers.ts:144-151 | one share per configured rule, with its address and percentage, in order |
| ServiceConfig.ExpectedRevShareTotal | packages/domain/src/provider/utils/suppliers.ts:153-158 | when the owner's remainder is appended the shares total exactly 100; otherwise the list is the fixed shares |
| ServiceConfig.ExpectedRevShareOrder | packages/domain/src/provider/utils/suppliers.ts:124-142 | the delegator's share comes first when set, then the supplier's when added |
| ServiceConfig.ExpectedEndpoints | packages/domain/src/provider/utils/suppliers.ts:162-171 | one endpoint per service endpoint, with its type, the interpolated URL and no configs |
| ServiceConfig.PushRuleShares | packages/domain/src/provider/utils/suppliers.ts:144-151 | the loop appends the rule shares and its running sum equals the total of the list |
| ServiceConfig.BuildRevShare | packages/domain/src/provider/utils/suppliers.ts:122-158 | the accumulated list equals the specified revenue-share list |
| ServiceConfig.BuildEndpoints | packages/domain/src/provider/utils/suppliers.ts:162-171 | the loop's endpoints equal the specified endpoints |
| ServiceConfig.GetExpectedServicesFromKey | packages/domain/src/provider/utils/suppliers.ts:118-179 | empty without an address group; otherwise one configuration per group service, in order, carrying its service id |
| KeyAllocation.Repeat | apps/provider/src/lib/services/suppliers.ts:35 | `qty` copies of the amount |
| KeyAllocation.SlotsShape | apps/provider/src/lib/services/suppliers.ts:34-36 | there are Σ qty slots, each holding some item's amount |
| KeyAllocation.SlotsAppend | apps/provider/src/lib/services/suppliers.ts:34-36 | the slots keep item order: one more item appends its slots |
| KeyAllocation.FirstAvailable | apps/provider/src/lib/services/suppliers.ts:57 | the first `min(limit, n)` of the group's n available rows, in table order |
| KeyAllocation.AvailableRows | apps/provider/src/lib/services/suppliers.ts:57 | exactly the rows that are available and in the group |
| KeyAllocation.MarkedFirstAvailable | apps/provider/src/lib/services/suppliers.ts:57-66 | marking the reserved keys' ids returns those keys, in reservation order |
| KeyAllocation.KeyTable.LockAvailableKeys | apps/provider/src/lib/services/suppliers.ts:57 | at most `limit` rows of the table, available and in the group |
| KeyAllocation.KeyTable.MarkKeysDelivered | apps/provider/src/lib/services/suppliers.ts:59-66 | exactly the rows with the given ids become delivered to the requester, and these are returned |
| KeyAllocation.KeyTable.InsertNewKeys | apps/provider/src/lib/services/suppliers.ts:79-81 | the rows are appended under fresh ids and returned |
| KeyAllocation.KeyTable.RecordBulk | apps/provider/src/lib/services/suppliers.ts:132-142 | a bulk transition is recorded as a call with its addresses and requester; the rows are untouched |
| KeyAllocation.ReleaseDeliveredSuppliers | apps/provider/src/lib/services/suppliers.ts:132-134 | passes the addresses and requester to `markAvailable` and changes nothing else |
| KeyAllocation.MarkDeliveredSupplierAsStaked | apps/provider/src/lib/services/suppliers.ts:136-138 | passes the addresses and requester to `markStaked` and changes nothing else |
| KeyAllocation.MarkStakedSupplierAsUnstaking | apps/provider/src/lib/services/suppliers.ts:140-142 | passes the addresses and requester to `markUnstaking` and changes nothing else |
| KeyAllocation.FindGroup | apps/provider/src/lib/services/suppliers.ts:26 | finds a group iff one has the id, and it carries that id |
| KeyAllocation.AssembleSuppliers | apps/provider/src/lib/services/suppliers.ts:98-129 | one supplier per key: key i is the operator and stakes slot i in decimal |
| KeyAllocation.PreviewKeys | apps/provider/src/lib/services/suppliers.ts:57-81 | a preview yields exactly the `needed` keys generated for the request and touches no table |
| KeyAllocation.AllocateKeys | apps/provider/src/lib/services/suppliers.ts:55-88 | the table becomes `AllocatedTable`: the group's first available rows are delivered to the requester with the request's owner, share and delegator address, other rows are unchanged, and the keys generated for the shortfall are appended under fresh ids; the keys are the reserved ones in table order, then the generated ones |
| KeyAllocation.AllocatedFrom | apps/provider/src/lib/services/suppliers.ts:57-81 | marking the reserved rows and appending the generated ones leaves `AllocatedTable`, and the created keys are the generated ones |
| KeyAllocation.GetSupplierStakeConfigurations | apps/provider/src/lib/services/suppliers.ts:18-130 | an unknown group fails first with "Address group with ID … not found"; a failure in the transaction rolls back all writes and reports "Failed to allocate keys: " and its message; a preview writes nothing and hands out generated keys; a real allocation leaves `AllocatedTable` and hands out `AllocatedKeys`; there is one supplier per slot, key i staking slot i with the services built for the group, its operator, and the request's owner, share and delegator |
| TransactionWorkflow.FailureLog | apps/middleman-workflows/src/workflows/ExecuteTransaction.ts:58 | the log is the chain's message, or `unknown error` when there is none |
| TransactionWorkflow.FinalStatus | apps/middleman-workflows/src/workflows/ExecuteTransaction.ts:89 | Success iff the verification succeeded, never Pending |
| TransactionWorkflow.Patch | apps/middleman-workflows/src/workflows/ExecuteTransaction.ts:55-97 | a partial write never changes the id or type |
| TransactionWorkflow.FollowUp | apps/middleman-workflows/src/workflows/ExecuteTransaction.ts:99-140 | nodes are created iff Stake and success; unstaking nodes are updated iff Unstake and success; failure is notified iff Stake and failure; nothing happens for a failed unstake |
| TransactionWorkflow.TransactionStore.UpdateTransaction | apps/middleman-workflows/src/workflows/ExecuteTransaction.ts:93-97 | patches the stored transaction and nothing else |
| TransactionWorkflow.VerifyAndFollowUp | apps/middleman-workflows/src/workflows/ExecuteTransaction.ts:85-151 | after the wait and the verification, the stored transaction gets the final status, the height read after and the consumed fee (0 without gas); the follow-ups run by type and outcome; the result carries the verified hash, the height read first and the chain's code |
| TransactionWorkflow.ExecuteTransaction | apps/middleman-workflows/src/workflows/ExecuteTransaction.ts:35-151 | a non-pending transaction fails before any step; a stored hash is never resubmitted; a null submission fails; a hashless submission records Failure with code and log and skips the wait and the verification; otherwise `executionHeight` is the height read first, the fresh or stored hash is verified, and the status, `verificationHeight` and `consumedFee` are recorded; the follow-ups run by type and outcome; the new and unstaking nodes are non-empty only in their own branch |
| NodesDal.ApplyNodeUpdate | apps/middleman-workflows/src/lib/dal/nodes.ts:121-130 | an update keeps a node's id and address |
| NodesDal.InRange | apps/middleman-workflows/src/lib/dal/nodes.ts:98-111 | exactly the rows with id in (lower, end] and not unstaked, ascending |
| NodesDal.FirstWithAddress | apps/middleman-workflows/src/lib/dal/nodes.ts:43-50 | finds a row iff one has the address |
| NodesDal.LinkAll | apps/middleman-workflows/src/lib/dal/nodes.ts:148-151 | one relation per node, to the transaction |
| NodesDal.WithAddressIn | apps/middleman-workflows/src/lib/dal/nodes.ts:185-188 | exactly the rows whose address is listed |
| NodesDal.NodeTable.LoadNode | apps/middleman-workflows/src/lib/dal/nodes.ts:43-50 | the row with the address, or none iff there is none |
| NodesDal.NodeTable.AggregateRows | apps/middleman-workflows/src/lib/dal/nodes.ts:76-82 | the aggregate always yields one row: the count, with min and max null iff the table is empty |
| NodesDal.MinMaxFromRows | apps/middleman-workflows/src/lib/dal/nodes.ts:84-88 | no aggregate row gives the documented zeros (count 0, both ids 0); otherwise the first row is returned as it is |
| NodesDal.NodeTable.GetNodesMinAndMax | apps/middleman-workflows/src/lib/dal/nodes.ts:75-89 | as written: the count of rows; on a non-empty table the smallest id (the first row's) and the largest (the last row's), which bound all ids; null bounds on an empty table |
| NodesDal.NodeTable.NodesMinAndMaxOrZero | apps/middleman-workflows/src/lib/dal/nodes.ts:67-74 | as documented: bounds that exist in the table, or 0 and 0 when it is empty |
| NodesDal.NodeTable.LoadNodesInRange | apps/middleman-workflows/src/lib/dal/nodes.ts:98-111 | ids in [afterId, endId] that are not unstaked, strictly ascending (the lower bound is inclusive) |
| NodesDal.NodeTable.UpdateNode | apps/middleman-workflows/src/lib/dal/nodes.ts:121-130 | only rows with the address whose stored height is at most the given one change; equal heights overwrite; other rows are untouched |
| NodesDal.NodeTable.Insert | apps/middleman-workflows/src/lib/dal/nodes.ts:140-160 | all nodes are appended under fresh ids, keeping their fields, and their references returned; there is one relation per inserted node iff the transaction id is non-zero and something was inserted |
| NodesDal.NodeTable.UpdateManyNodeAndLinkToTransaction | apps/middleman-workflows/src/lib/dal/nodes.ts:172-204 | every row with a listed address is updated without a height guard; each is linked once; the input list is returned |
| StakeOffers.EligibleGroups | apps/middleman/src/actions/Stake.ts:51-57 | exactly the public groups that are open or link the owner, ignoring case |
| StakeOffers.GreedyStep | apps/middleman/src/actions/Stake.ts:78-86 | the amount becomes undefined only when a positive remainder meets size 0; items only grow, by at most one item `{size, remaining / size}` of positive size; nothing changes once the remainder is used up or undefined |
| StakeOffers.GreedyStepKeeps | apps/middleman/src/actions/Stake.ts:79-85 | a step places exactly what it takes from `remaining` |
| StakeOffers.GreedyFoldKeeps | apps/middleman/src/actions/Stake.ts:74-87 | the fold places exactly what it takes from `remaining`, in items of positive size and quantity |
| StakeOffers.GreedyUndefinedStays | apps/middleman/src/actions/Stake.ts:79-83 | a remaining amount made undefined by a zero size stays undefined |
| StakeOffers.DistributionIsExact | apps/middleman/src/actions/Stake.ts:74-90 | a non-empty distribution (`Distribution`: the greedy items, or none when an amount is left over or undefined) totals exactly the stake amount, over offered sizes |
| StakeOffers.SingleSizeDistribution | apps/middleman/src/actions/Stake.ts:43-90 | with the one node size, the split is `amount / size` nodes iff the amount is a positive multiple, else empty |
| StakeOffers.Distribute | apps/middleman/src/actions/Stake.ts:76-90 | the reduce loop computes the specified distribution |
| StakeOffers.AllowedSizes | apps/middleman/src/actions/Stake.ts:74 | exactly the sizes at or above the provider minimum |
| StakeOffers.MakeOffer | apps/middleman/src/actions/Stake.ts:93-105 | the offer carries the provider's id, identity, name, fee, regions, funds and status, its fee type or Fixed when unset, and the given distribution and groups |
| StakeOffers.OfferOf | apps/middleman/src/actions/Stake.ts:46-106 | at most one offer, and one exactly when the provider is enabled and has an eligible group |
| StakeOffers.Offers | apps/middleman/src/actions/Stake.ts:45-107 | at most one offer per provider |
| StakeOffers.OffersAreSound | apps/middleman/src/actions/Stake.ts:45-107 | every offer comes from an enabled provider with at least one eligible group and lists exactly those groups; a non-empty distribution implies funds, a minimum, an admitted owner and the exact amount |
| StakeOffers.CalculateStakeDistribution | apps/middleman/src/actions/Stake.ts:39-108 | the loop computes the specified offers with the application minimum as the one size |
| StakeOffers.ProviderOffer | apps/middleman/src/actions/Stake.ts:47-106 | one provider's offer, as specified |
| StakeOffers.CreateStakeTransaction | apps/middleman/src/actions/Stake.ts:110-128 | a Pending Stake transaction with consumedFee 0; the payloads, sender and estimated fee come from the signed transaction; the provider id and fee type from the offer; the provider fee is the offer's, or 0 (`Number(null)`) when the provider has none; created by the current user |
| StakeOffers.InsertEntry | apps/middleman/src/actions/Stake.ts:138 | inserting into the sorted entries adds exactly the entry |
| StakeOffers.InsertEntrySorted | apps/middleman/src/actions/Stake.ts:138 | insertion keeps the entries sorted |
| StakeOffers.SortEntries | apps/middleman/src/actions/Stake.ts:138 | sorting is a permutation |
| StakeOffers.SortEntriesSorted | apps/middleman/src/actions/Stake.ts:138 | the sorted entries are in ascending order |
| StakeOffers.CanonicalMemoOrder | apps/middleman/src/actions/Stake.ts:131-139 | the canonical memo lists its keys a, f, t whatever the values |
| DelegatorSync.Known | apps/provider/src/actions/Delegators.ts:68-72 | every published identity and history entry is known |
| DelegatorSync.Snapshot | apps/provider/src/actions/Delegators.ts:63-66 | each identity maps to a current row with that identity |
| DelegatorSync.FirstFound | apps/provider/src/actions/Delegators.ts:81-88 | a match is a snapshot row under one of the possible ids; no match means none of them is in the snapshot |
| DelegatorSync.FirstFoundIsFirst | apps/provider/src/actions/Delegators.ts:81-88 | the match is the snapshot row of the first candidate id that has one: every earlier candidate has none |
| DelegatorSync.Match | apps/provider/src/actions/Delegators.ts:80-88 | the row under the entry's current identity when there is one, else the row of the first former identity that has one |
| DelegatorSync.MatchNone | apps/provider/src/actions/Delegators.ts:80-93 | an entry matches nothing (and is inserted) iff neither its identity nor any former one has a row |
| DelegatorSync.CurrentEntryUnchanged | apps/provider/src/actions/Delegators.ts:90-96 | an entry whose identity and name a current row already has causes no update |
| DelegatorSync.FormerIdentityChanges | apps/provider/src/actions/Delegators.ts:86-96 | an entry matched only through a former identity always rewrites the identity, to one listed in its history beforehand |
| DelegatorSync.StaleCount | apps/provider/src/actions/Delegators.ts:119-131 | at most one per row |
| DelegatorSync.StaleCountZero | apps/provider/src/actions/Delegators.ts:119-131 | nothing is disabled exactly when no row is stale (enabled with an unpublished identity) |
| DelegatorSync.Renamed | apps/provider/src/actions/Delegators.ts:90-106 | a rename keeps the row's id and enabled flag |
| DelegatorSync.StaleIdentities | apps/provider/src/actions/Delegators.ts:119-131 | every stale identity is absent from the published list, and every stale row's identity is included |
| DelegatorSync.NewRows | apps/provider/src/actions/Delegators.ts:107-116 | one disabled row per unmatched entry, with its identity and name, under consecutive ids |
| DelegatorSync.RenamedIdentityKnown | apps/provider/src/actions/Delegators.ts:86-106 | a matched row's new identity is a published identity |
| DelegatorSync.RenameRows | apps/provider/src/actions/Delegators.ts:97-104 | only the row with the id gets the new identity and name |
| DelegatorSync.MergedStep | apps/provider/src/actions/Delegators.ts:80-117 | handling one more entry (rename the match when it differs, insert when unmatched, else nothing) takes the merge of the earlier entries to the merge including it |
| DelegatorSync.UnmatchedKnown | apps/provider/src/actions/Delegators.ts:68-116 | an inserted identity is known, so the disable pass leaves it alone |
| DelegatorSync.DelegatorTable.Rename | apps/provider/src/actions/Delegators.ts:97-104 | the table becomes the renamed rows; ids stay distinct and below the next id |
| DelegatorSync.DelegatorTable.InsertDisabled | apps/provider/src/actions/Delegators.ts:108-114 | appends one disabled row under the next id, which then advances; ids stay distinct |
| DelegatorSync.DelegatorTable.DisableIdentity | apps/provider/src/actions/Delegators.ts:121-128 | exactly the rows with the identity are disabled; ids stay distinct and below the next id |
| DelegatorSync.ApplyEntries | apps/provider/src/actions/Delegators.ts:80-117 | the table becomes the rows read, each renamed by the entries matching it, followed by the unmatched entries as new disabled rows in list order; inserted counts the unmatched entries and updated the changed matches; the next id advances by inserted and ids stay distinct |
| DelegatorSync.DisableStale | apps/provider/src/actions/Delegators.ts:119-131 | disabled counts the stale rows; a row stays enabled iff it was enabled and its identity is not stale; ids stay distinct |
| DelegatorSync.UpdateDelegatorsFromSource | apps/provider/src/actions/Delegators.ts:63-141 | each count equals the writes of its kind; every old row is renamed, and stays enabled iff it was enabled with a known identity; unmatched entries are appended disabled; the next id advances by the inserted count and ids stay distinct |
| StatusRoute.KeptFields | apps/provider/src/app/api/status/route.ts:40-43 | exactly the fields whose key is not skipped |
| StatusRoute.StripWith | apps/provider/src/app/api/status/route.ts:32-49 | arrays map elementwise, objects stay objects, and primitives and null are returned unchanged |
| StatusRoute.StripIsClean | apps/provider/src/app/api/status/route.ts:32-49 | no skipped key remains at any depth |
| StatusRoute.StripKeepsClean | apps/provider/src/app/api/status/route.ts:32-49 | a value without skipped keys is returned unchanged |
| StatusRoute.StripIdempotent | apps/provider/src/app/api/status/route.ts:32-49 | stripping twice equals stripping once |
| StatusRoute.StripRemovesExactlyAudit | apps/provider/src/app/api/status/route.ts:23-49 | `stripAuditFields` as intended (`StripAuditFields`): the four audit keys are removed at every depth, and nothing is removed from a value that has none |
| StatusRoute.StripAsWrittenRemovesSkipped | apps/provider/src/app/api/status/route.ts:25-49 | `stripAuditFields` as written (`StripAuditFieldsAsWritten`): no audit key and no inherited member name remains at any depth, and a value without such keys is unchanged |
| StatusRoute.AsWrittenDropsInheritedNames | apps/provider/src/app/api/status/route.ts:25-41 | as written, `{constructor: 1}` loses its field |
| StatusRoute.PublicGroups | apps/provider/src/app/api/status/route.ts:66-67 | exactly the non-private groups |
| StatusRoute.Domains | apps/provider/src/app/api/status/route.ts:17-19 | exactly the non-empty domains of the groups |
| StatusRoute.UniqueDomains | apps/provider/src/app/api/status/route.ts:16-21 | the distinct non-empty domains |
| StatusRoute.LinkedAddresses | apps/provider/src/app/api/status/route.ts:82 | exactly the addresses some group links |
| StatusRoute.Flatten | apps/provider/src/app/api/status/route.ts:77 | exactly the values of the inner lists |
| StatusRoute.Fees | apps/provider/src/app/api/status/route.ts:71-78 | exactly the share percentages of the groups' services |
| StatusRoute.MaxFee | apps/provider/src/app/api/status/route.ts:89 | the largest fee, or 0 when there is none |
| StatusRoute.FeeTypeFixedIff | apps/provider/src/app/api/status/route.ts:90 | Fixed iff at least one fee exists and all fees are equal |
| StatusRoute.DedupeOfConstant | apps/provider/src/app/api/status/route.ts:90 | a constant list de-duplicates to one value |
| StatusRoute.StatusFor | apps/provider/src/app/api/status/route.ts:65-95 | allowPublicStaking iff some group is public; stakers are the addresses linked by public groups, each once; domains are the non-empty domains of public groups; the groups are the public ones stripped as the route does (`StripAuditFieldsAsWritten`: audit keys and inherited member names removed); fee is the largest share of a public group and feeType is Fixed iff all those shares are equal; regions, minimum stake and reward addresses are passed through |
| StatusRoute.FeeBoundsShares | apps/provider/src/app/api/status/route.ts:89 | every share of a public group is at most the fee |
| StatusRoute.NoSharesNoFee | apps/provider/src/app/api/status/route.ts:89-90 | no collected share gives fee 0 and UpTo |
| StatusRoute.FeesOfEmptyShares | apps/provider/src/app/api/status/route.ts:71-78 | no shares give no fees |
| Shares.RevShareTotals | apps/middleman/src/lib/utils/shareCalculations.ts:43-47 | each service's revShare total, 0 when it has none |
| Shares.SupplierShares | apps/middleman/src/lib/utils/shareCalculations.ts:52-60 | exactly the shares of the services that add a supplier share: each listed share is one, and each such service's share is listed |
| Shares.Max0 | apps/middleman/src/lib/utils/shareCalculations.ts:72 | `Math.max(0, x)` |
| Shares.CalculateShares | apps/middleman/src/lib/utils/shareCalculations.ts:27-74 | the delegator share is the fee; with no services, 0, 0, fee and 100 − fee; otherwise the client share is never negative, the four shares total 100 when it is positive, and the other three reach at least 100 when it is clamped to 0 |
| Shares.Mean | apps/middleman/src/lib/utils/shareCalculations.ts:49-64 | 0 for no values; otherwise the value that, taken once per value, adds up to their sum |
| Shares.MeanBounds | apps/middleman/src/lib/utils/shareCalculations.ts:49-63 | a mean lies within the bounds of its values |
| Shares.AveragesWithinBounds | apps/middleman/src/lib/utils/shareCalculations.ts:43-64 | the provider and supplier averages lie within the services' bounds; with no supplier share, the supplier share is 0 |
| Shares.SupplierSharesNonEmpty | apps/middleman/src/lib/utils/shareCalculations.ts:52-54 | some service is averaged iff some service adds a supplier share |
| Duration.JsRem | apps/middleman/src/lib/utils/time.ts:7-8 | JavaScript `%`: it keeps the dividend's sign, stays below the divisor, and equals the modulus for non-negative input |
| Duration.Components | apps/middleman/src/lib/utils/time.ts:6-8 | hours < 24, minutes < 60, and days, hours and minutes rebuild the whole minutes of the input |
| Duration.Parts | apps/middleman/src/lib/utils/time.ts:10-21 | at most two parts are shown |
| Duration.PartsShown | apps/middleman/src/lib/utils/time.ts:12-21 | the parts are d, h, m in order: days iff > 0, hours iff > 0, minutes only when > 0 and no days |
| Duration.UnderAMinute | apps/middleman/src/lib/utils/time.ts:23 | `< 1m` exactly when no part is shown, in particular below 60 seconds |
| Duration.FormatDuration | apps/middleman/src/lib/utils/time.ts:5-24 | "< 1m" when no part is shown; otherwise the text begins with the first part shown |
| Duration.JoinStartsWithFirst | apps/middleman/src/lib/utils/time.ts:23 | the joined text begins with the whole first part, so with its first character |
| UnstakeStages.StageOutcomes | apps/middleman/src/app/app/unstake/utils.ts:4-10 | no stage both succeeds and fails, and a stage in any other state does neither |
| UnstakeStages.GetFailedStage | apps/middleman/src/app/app/unstake/utils.ts:12-14 | the first key whose stage is `error`, or none iff no stage failed |
| UnstakeStages.AllSucceededMeansNoneFailed | apps/middleman/src/app/app/unstake/utils.ts:12-18 | when every stage succeeded, no failed stage is found |
| PoktCrypto.AddressShape | apps/provider/src/lib/crypto.ts:54-56 | `pokt1` followed by a text is an address iff the text has 38 to 43 characters, all lower-case letters or digits |
| PoktCrypto.AddressHasPrefix | apps/provider/src/lib/crypto.ts:54-56 | every address begins with `pokt1` |
| PoktCrypto.HexKeyExamples | apps/provider/src/lib/crypto.ts:61-63 | 64 hex digits in lower, upper or mixed case pass; 63 or 65 digits, or a letter beyond `f`, do not |
| PoktCrypto.AddressIsNotHexKey | apps/provider/src/lib/crypto.ts:54-63 | no string is both an address and a hex key |
| PoktCrypto.NormalizeIdentityToAddress | apps/provider/src/lib/crypto.ts:89-111 | an address is kept; a 64-hex key becomes `pubkeyToAddress('02' + key)`, or stays itself when that fails; anything else is kept |
| PoktCrypto.NormalizeIdempotent | apps/middleman/src/lib/crypto.ts:61-76 | normalising twice equals normalising once |
| PoktCrypto.NormalizedIsAddressOrInput | apps/middleman/src/lib/crypto.ts:61-76 | the result is an address or the input itself |
| PoktCrypto.VerifySignature | apps/provider/src/lib/crypto.ts:14-37 | true iff the decoded key is compressed (33 bytes starting 0x02 or 0x03) and the primitive accepts the signature's first 64 bytes; a throwing primitive gives false |
| PoktCrypto.Take | apps/provider/src/lib/crypto.ts:32 | the first n bytes, or all of them when there are fewer |
| PoktCrypto.SignatureTailIgnored | apps/provider/src/lib/crypto.ts:30-32 | signature bytes after the 64th do not matter |
| ActionUtils.Succeed | apps/provider/src/lib/utils/actionUtils.ts:30-32 | a success carrying the data |
| ActionUtils.Fail | apps/provider/src/lib/utils/actionUtils.ts:35-37 | a failure carrying the code and message |
| ActionUtils.RequireAuth | apps/provider/src/lib/utils/actionUtils.ts:48-54 | success with the user iff logged in, else UNAUTHORIZED |
| ActionUtils.RequireRole | apps/provider/src/lib/utils/actionUtils.ts:56-68 | UNAUTHORIZED without a user, FORBIDDEN for a role not allowed, else success with the user |
| ActionUtils.RequireOwner | apps/provider/src/lib/utils/actionUtils.ts:70-72 | succeeds iff the user is an Owner |
| ActionUtils.RequireOwnerOrAdmin | apps/provider/src/lib/utils/actionUtils.ts:74-76 | succeeds iff the user is an Owner or Admin |
| ActionUtils.Classify | apps/provider/src/lib/utils/actionUtils.ts:94-105 | exact `Unauthorized`/`Not logged in` gives UNAUTHORIZED, else `validation`/`Invalid` gives VALIDATION_ERROR, else INTERNAL_ERROR with the message; a non-Error gives the generic message |
| ActionUtils.WithAuth | apps/provider/src/lib/utils/actionUtils.ts:79-107 | a failed check is returned unchanged; a normal return is wrapped in success; a throw is classified |
| ActionUtils.FailedCheckSkipsAction | apps/provider/src/lib/utils/actionUtils.ts:84-87 | after a failed check the action cannot influence the result |
| ActionUtils.AdminIsNoOwner | apps/provider/src/lib/utils/actionUtils.ts:70-76 | an Admin is FORBIDDEN from owner actions but admitted to owner-or-admin ones |
| RewardAddressForm.Filter | apps/provider/src/app/admin/setup/ConfigureAppSettings/index.tsx:37 | exactly the kept tokens |
| RewardAddressForm.TrimAll | apps/provider/src/app/admin/setup/ConfigureAppSettings/index.tsx:37 | each token trimmed |
| RewardAddressForm.LinesAreTokens | apps/provider/src/app/admin/setup/ConfigureAppSettings/index.tsx:36-37 | trimming each line changes nothing: the lines are the tokens of the trimmed value between runs of white space and commas |
| RewardAddressForm.Validate | apps/provider/src/app/admin/setup/ConfigureAppSettings/index.tsx:28-51 | each issue is raised iff its rule fails: empty name, bad e-mail, no address, an invalid address |
| RewardAddressForm.Issues | apps/provider/src/app/admin/setup/ConfigureAppSettings/index.tsx:28-51 | each issue is present iff its flag is set |
| RewardAddressForm.EmptyListAccepted | apps/provider/src/app/admin/setup/ConfigureAppSettings/index.tsx:32-44 | an empty value passes both refinements |
| RewardAddressForm.AcceptedIffEveryEntryIsAddress | apps/provider/src/app/admin/setup/ConfigureAppSettings/index.tsx:36-50 | a value is accepted iff it is empty or every line is an address |
| RewardAddressForm.FilterKeepsAllIff | apps/provider/src/app/admin/setup/ConfigureAppSettings/index.tsx:49 | filtering keeps the length iff every token passes |
| RewardAddressForm.SubmittedAddresses | apps/provider/src/app/admin/setup/ConfigureAppSettings/index.tsx:84 | the submitted list holds only valid addresses |
| RewardAddressForm.SubmittedAreCountedAddresses | apps/provider/src/app/admin/setup/ConfigureAppSettings/index.tsx:37-84 | splitting without trimming submits exactly the addresses the validator counted |
| RewardAddressForm.AcceptedListSubmittedWhole | apps/provider/src/app/admin/setup/ConfigureAppSettings/index.tsx:36-84 | an accepted list is submitted token for token |

## Left out

- I/O and the runtime are not modelled: network and database access, logging, Temporal timeouts and retries, and concurrency. Each database transaction is atomic and single-threaded.
- Chain and database reads are inputs: the key, the settings, the balance, the supplier, block heights and the published delegator list. Database errors enter only as the `writeFails` and `failure` parameters.
- Foreign functions are parameters with no meaning attached: `BuildSupplierServiceConfigHandler`, `createKeys`, `stakeSupplier`, the verification of a hash on chain, `pubkeyToAddress` (sha256, ripemd160, bech32), secp256k1 verification, `Buffer.from` decoding, and the e-mail check of the form.
- `PROTOCOL_DEFAULT_URL` is a parameter (`defaultUrl`), since its value is not in the modelled files.
- `dal.keys.updateKey` is not in the modelled files. It is modelled with the same height guard as `updateNode` (the stored height must not exceed the given one).
- `lockAvailableKeys`, `markKeysDelivered` and `insertNewKeys` are not in the modelled files. They are modelled as reserve-in-table-order, mark-by-id and append-with-fresh-ids.
- `markAvailable`, `markStaked` and `markUnstaking` are recorded as calls, with no meaning attached.
- TransactionWorkflow.ExecuteTransaction: a transaction `getTransaction` cannot find is reported as `TransactionNotFound`. The source would fail reading its status.
- SupplierActivities.BuildStatusUpdate: a supplier without a stake coin is reported as `MissingStakeCoin`. The source would fail when reading `supplier.stake.amount`.
- The stake amount is modelled as a natural number, so `parseInt` of a fractional or malformed stake string is not modelled.
- Percentages in `calculateShares` are exact reals, not floating point.
- `formatDuration` is modelled on whole seconds. Fractional and NaN inputs are not modelled.
- `toLowerCase` is ASCII-only. Unicode case mapping is not modelled.
- The signing and base64url encoding in `CreateSignedMemo` are not modelled, nor is its double `JSON.stringify`; only the key order of the canonical payload is.
- `StageStatus` and `UserRole` are defined in files outside this model. Only the values the code compares against are named; the rest are one catch-all case.
- The status route reads its regions, settings and revenue shares (`getRevShare`) as inputs, and does not check that the application is bootstrapped or that the request is signed.
- `stripAuditFields` is modelled on a JSON value type. `Date` objects and other prototypes are not modelled.
- DelegatorSync.UpdateDelegatorsFromSource: the audit columns `createdBy`, `updatedBy` and `updatedAt` are not modelled.
- Endpoint lists absent from a service definition are modelled as empty lists; the `undefined` endpoints the source would produce are not modelled.
- ServiceConfig.BuildRevShare: revenue-share percentages (`revSharePercentage`, a rule's `share`, `supplierShare` and the key's delegator share) are whole numbers. The source holds them as JavaScript numbers, so fractional percentages and the floating-point rounding of `revShareSum` and `100 - revShareSum` are not modelled.
- ServiceConfig.ExpectedRevShareTotal: the total of exactly 100 is stated over whole-number percentages; with fractional JavaScript numbers the floating-point sum could miss 100.
- StatusRoute.StatusFor: the service shares the route collects are whole numbers, so `Math.max` and the equality test over fractional JavaScript numbers are not modelled.
- KeyAllocation.GetSupplierStakeConfigurations: the requested `revSharePercentage` is a whole number.
- ServiceConfig.InterpolatePlaceholder: an inherited member's text is that of the V8 JavaScript engine (for example `function toString() { [native code] }`); other engines may print native functions differently.

## Findings

| source | as written | input that shows it | evidently intended | confidence | as-written member | corrected member |
|---|---|---|---|---|---|---|
| packages/domain/src/provider/utils/suppliers.ts:70-107 | the `Set` of service objects merges nothing, so one service id can appear twice | a current service `anvil` that is not being removed, plus a history entry activating `anvil` at height 20, queried at height 10 | each service id once, as the function's documentation says | not executed | ServiceConfig.ActiveServicesCanRepeatServiceId | ServiceConfig.UniqueActiveServices |
| apps/middleman-workflows/src/lib/dal/nodes.ts:75-89 | an aggregate query always returns one row, so the empty-table branch never runs and min/max come back null | an empty node table | 0 for both ids when there are no nodes, as documented | not executed | NodesDal.NodeTable.GetNodesMinAndMax | NodesDal.NodeTable.NodesMinAndMaxOrZero |
| apps/provider/src/app/api/status/route.ts:25-49 | `AUDIT_FIELDS[key]` also finds members inherited from `Object.prototype`, so such keys are dropped | `{constructor: 1}` becomes `{}` | drop exactly the four audit keys | not executed | StatusRoute.AsWrittenDropsInheritedNames | StatusRoute.StripRemovesExactlyAudit |
