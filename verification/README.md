# Tenant cloud control plane: a verified model

The repository is the control plane of a multi-tenant cloud: it gives each tenant an OPNsense
firewall VM, a bridge, subnets, VLANs and WireGuard tunnels, keeps database rows for all of them,
and pushes and pulls those rows to and from the appliances. This project models the parts where rows and
appliances must agree, and proves what holds over every input, every failure and every run.

| file | part |
|---|---|
| `Text.dfy`, `Numerals.dfy`, `Sets.dfy` | nullable columns, decimal printing and parsing, what `int` accepts, counting of finite sets |
| `RuleRecord.dfy` | a firewall rule row, its payload, and the parsing of a listed rule |
| `RuleOrder.dfy` | `move_rule_before` and the reorder loop on plain sequences |
| `FirewallModel.dfy` | the appliance (staged and live rule lists) and the rule table |
| `FirewallApply.dfy`, `FirewallTask.dfy`, `ApplyProperties.dfy` | the two-phase commit: closed form, the loops, their properties |
| `FirewallSync.dfy`, `SyncProperties.dfy` | pulling drift back |
| `FirewallReconcile.dfy` | rebuilding the table in appliance order |
| `FirewallApi.dfy` | the handlers that edit rows, and the moves |
| `ApplyExamples.dfy` | one table on which the task goes wrong although it follows its code |
| `FirewallRuns.dfy`, `FirewallEdits.dfy` | all of these as steps of one state machine; what the steps do to sequences and to pending deletions |
| `RateLimit.dfy`, `RedisHint.dfy`, `RateBudget.dfy` | the in-memory and the Redis sliding-window limiters; when the Redis retry hint is honest; what the remaining budget promises |
| `AddressPools.dfy`, `NetworkPools.dfy`, `NetworkRuns.dfy` | row pools under `FOR UPDATE SKIP LOCKED`, seeding, tenant networks |
| `ProvisioningTables.dfy`, `Provisioning.dfy`, `Retries.dfy` | tenants, bridges and pods; approval inside one session; what a tenant keeps from earlier attempts |
| `DiskQuota.dfy` | quotas with one-decimal rounding |
| `VlanConfig.dfy` | the in-VM VLAN editor with verification after each write |
| `Convergence.dfy`, `TemplateSync.dfy` | the reconciler and the Proxmox template sync |
| `LeastFree.dfy`, `PeerAddresses.dfy` | least-free searches and WireGuard peer addresses |

## How the source is modelled

- **Appliance.** Two lists of (uuid, payload), staged and live. `add_rule` appends under a fresh
  uuid, `set_rule` and `del_rule` fail on an unknown uuid, `move_rule_before` removes a rule and
  reinserts it right before another, `apply_rules` makes the staged list live. A call that throws
  changes nothing. Fresh uuids never start with `pending`.
- **Failures.** Which calls fail is an input (`Calls`, `Weather`, `Provider`, plain flags), so each
  theorem covers every pattern of failures.
- **Steps.** A task or handler is one step. Pools are the exception: in the run theorems every
  query and write of a transaction is a step of its own, both queries of `allocate_subnet`
  included, and transactions interleave freely; the handlers as methods run theirs undisturbed.
- **Queries without an order.** The order in which the database returns the pending rows is an input
  (`Calls.queryOrder`); new rules stand on the appliance in that order.
- **Sessions.** The database session does not flush before queries (`app/core/database.py:19`), so
  a query sees committed values while assignments stay in the session. `Provisioning.Session`
  keeps both, and pools assume one allocation per pool and transaction
  (`AddressPools.SecondAllocationRepeatsRow` says what a second one would return).
  At a commit the session writes the changed rows one by one, by primary key, and inserts the new
  ones after them; each statement is held against the unique indexes as it comes
  (`TemplateSync.UpdatesPass`, `TemplateSync.InsertsPass`).
- **Database order.** `ORDER BY sequence` is any order that ascends; ties may come out either way.
- **Clock.** Abstract, real-valued and monotone; the in-memory limiter reads it twice per request.
- **Rounding.** Disk usage in gigabytes with one decimal is counted in tenths.

## Where the code does not do what one would expect

Each of these is a theorem about the code as it is written, with the exact condition under which the
code does what is expected, or with an input on which it does not.

- The reorder loop reaches database order exactly when the last rules of the runs of present rows
  already stood in that order (`RuleOrder.ReorderReachesDatabaseOrder`); for the whole task that
  is a condition on the rows, the staged order and the calls
  (`ApplyProperties.ApplyOrderFromInputs`). A rule deleted in the same batch splits the runs
  (`ApplyExamples.DeletionLeavesApplyUnordered`).
- A rule whose row is dropped stays live exactly when the reload failed
  (`ApplyProperties.DroppedRuleStaysLive`), and no later apply repairs that while nothing is pending
  (`ApplyExamples.DeletedRuleStaysLive`).
- A listed rule with an unparsable sequence stops a reconcile after it emptied the table
  (`FirewallReconcile.ReconcileFirewallRules`).
- The default sequence of a new rule can be taken; a move of two tied rules then changes nothing
  (`FirewallEdits.SequencesAfterEdit`, `FirewallEdits.DefaultSequenceCollides`,
  `FirewallApi.MoveWithTieMovesNothing`).
- Updating, toggling or moving a rule marked for deletion, or moving its neighbour past it, cancels
  the deletion (`FirewallEdits.DeletionCancelled`, `FirewallEdits.CancelledDeletionStaysLive`).
- The Redis limiter counts rejected requests, so its retry hint is honest only if enough of them expire
  together with the oldest (`RedisHint.HintIsHonest`); with a limit of one, only if the oldest is at
  most a second old (`RedisHint.SingleRequestHint`).
- The in-memory limiter answers every request with an index error exactly when the limit is not
  positive (`RateLimit.EveryRequestCrashesWithoutLimit`, `RateLimit.WhenEndpointCrashes`).
- `delete_network` does not look at the status: deleting twice frees rows that another network may
  have by then (`NetworkRuns.DeleteKeepsInv`, `NetworkRuns.SecondDeleteSharesSubnet`).
- A safe subnet freed between the two queries of an allocation is passed over
  (`NetworkRuns.OverflowIsLastResort`, `NetworkRuns.SafeRowMissed`).
- 1024 overflow subnets are also WireGuard subnets (`NetworkPools.WireguardOverlapsTenants`).
- The reset of a tenant in error leaks its bridge row, and releasing that row by hand takes the
  tenant's next bridge away (`ProvisioningTables.ResetLeaks`, `ProvisioningTables.ReleaseMovesLeak`).
- The reset leaves the tenant's default network live as well, and the next approval adds another on a
  new /24. No step ends a default network, so a tenant has as many as it had approvals, and keeps
  their subnets (`Retries.DefaultsCountApprovals`, `Retries.OldDefaultKeepsItsSubnet`,
  `Retries.RetryFollowsStrip`).
- A pod's tenant count never goes down: it counts approvals, and exceeds the number of its tenants by
  the approvals of tenants that were on it already (`ProvisioningTables.PodCountsApprovals`).
- A failed verification never leaves the error status it writes: it is rolled back. When only the
  provisioning task cannot be queued, the failure is reported although the approval is committed, and
  the tenant can be neither verified nor approved again until an administrator releases one of its
  bridge rows or some worker writes its status (`Provisioning.Session.VerifyTenant`,
  `Provisioning.UndispatchedIsStuck`, `ProvisioningTables.StuckUntilUnstuck`,
  `ProvisioningTables.ReleaseUnsticks`).
- A quota can be exceeded by exactly 51 MiB (`DiskQuota.SlackIsReached`); growing a disk that the
  VM's record does not know can exceed it by any amount (`DiskQuota.AcceptedResizeFits`,
  `DiskQuota.SecondDiskPassesQuota`).
- `remove_vlan` without a parent verifies nothing (`VlanConfig.ConfigInVM.RemoveVlan`).
- A failed container listing reads as an empty provider: a single reconcile that sees it deletes
  every VM row (`Convergence.RowsSurviveRun`, `Convergence.BlindReconcileLosesEverything`).
- A template row keeps its unique name when it is soft-deleted, and blocks a new template of that
  name. Rows are updated one by one, so a revived row cannot take the name that a revived row behind
  it gives up in the same sync, and two that exchange names stop every sync
  (`TemplateSync.WhenAdmissible`, `TemplateSync.KeptNameBlocksSync`, `TemplateSync.ExchangeIsRefused`,
  `TemplateSync.FreshNamesAreNotEnough`).
- Two tunnels created before the first is provisioned get the same port
  (`LeastFree.PendingTunnelSharesPort`).
- Peers are recorded without `/32`, which the allocator skips, so all peers of a tunnel get one
  address (`PeerAddresses.BarePeersCollide`, `PeerAddresses.TwoPeersOneAddress`; with `/32` they
  would differ, `PeerAddresses.RecordedPeersAreDistinct`). The docstring of
  `app/services/wireguard_ipam.py` speaks of a high-water mark; the code has none.
- The docstring of `apply_all_pending_rules_task` names failed rows; the query does not select them
  (`app/workers/tasks/firewall_manager.py:356-376`). The model follows the query.

## Model

| member | source | states |
|---|---|---|
| `Text.ParseShow` | app/workers/tasks/firewall_manager.py:80 | `int` reads back every integer that `str` printed, negative ones included |
| `Text.LettersAreMapped` | app/models/opnsense_firewall_rule.py:40 | lower and upper case map the 26 letters to each other and nothing else |
| `Numerals.AcceptsNumerals` | app/workers/tasks/firewall_manager.py:80 | `int` accepts every numeral with a sign and blanks around it, and gives its value |
| `Numerals.AcceptsOnlyNumerals` | app/workers/tasks/firewall_manager.py:80 | and nothing else: underscores only between digits, one sign, blanks only outside |
| `RuleRecord.PayloadParses` | app/models/opnsense_firewall_rule.py:39-98 | every payload can be parsed back, and gives the row's normal form |
| `RuleRecord.PayloadNormalForm` | app/models/opnsense_firewall_rule.py:39-98 | payload, parse, payload gives the same payload if and only if the row's flags are plain; the normal form is a fixed point |
| `RuleRecord.PortStable` | app/models/opnsense_firewall_rule.py:40-43 | a port survives the cycle for every protocol, though it is blanked for all but TCP and UDP |
| `RuleRecord.FlagStable` | app/workers/tasks/firewall_manager.py:33-38 | a flag survives the cycle if and only if it is empty, "0" or "1" |
| `RuleRecord.PayloadKeepsText` | app/models/opnsense_firewall_rule.py:44-98 | all text columns and the sequence survive the cycle whatever the flags |
| `RuleRecord.PayloadSends` | app/models/opnsense_firewall_rule.py:39-98 | each key of the payload carries the column of its name, or the default where that is empty; ports only for TCP and UDP and never the word any |
| `RuleRecord.ParseReads` | app/workers/tasks/firewall_manager.py:33-102 | a listed rule is refused exactly for its sequence, and otherwise each column is the key of its name, its default when missing |
| `RuleRecord.NormalRowsStay` | app/models/opnsense_firewall_rule.py:39-98 | pushing a row and reading it back keeps all its columns if and only if they are normal, column by column |
| `RuleOrder.MoveBeforeEffect` | app/workers/tasks/firewall_manager.py:452 | a move is a permutation that puts one rule right before the other, keeps the order of all others and breaks no other adjacent pair |
| `RuleOrder.ReorderEffect` | app/workers/tasks/firewall_manager.py:445-454 | each move that succeeded is still visible after the loop, whatever the others did; unmoved rules keep their order |
| `RuleOrder.RunIsBlock` | app/workers/tasks/firewall_manager.py:445-454 | a run of consecutive database rules that are all present ends as one contiguous block in database order |
| `RuleOrder.ReorderReachesDatabaseOrder` | app/workers/tasks/firewall_manager.py:434-454 | with all moves succeeding the list ends in database order if and only if the anchors of the runs were in order |
| `RuleOrder.AllPresentReachesDatabaseOrder` | app/workers/tasks/firewall_manager.py:434-454 | when every database rule is present they end as one block in database order |
| `RuleOrder.DeletionLeavesWrongOrder` | app/workers/tasks/firewall_manager.py:434-454 | a deletion in the batch can leave the rules around it in the opposite order |
| `FirewallModel.Firewall.AddRule` | app/providers/firewall_provider.py:241-248 | success appends the payload under a new uuid to the staged list; a throw changes nothing |
| `FirewallModel.Firewall.SetRule` | app/providers/firewall_provider.py:250-257 | success replaces the payload of a known uuid; otherwise it raises and changes nothing |
| `FirewallModel.Firewall.DelRule` | app/providers/firewall_provider.py:259-266 | success removes a known uuid; otherwise it raises and changes nothing |
| `FirewallModel.Firewall.MoveRuleBefore` | app/providers/firewall_provider.py:268-272 | success is the list move; a throw changes nothing |
| `FirewallModel.Firewall.ApplyRules` | app/providers/firewall_provider.py:274-280 | success makes the live list equal the staged one |
| `FirewallModel.RuleTable.BySequence` | app/workers/tasks/firewall_manager.py:434-436 | lists every row once in ascending sequence |
| `FirewallTask.SelectPending` | app/workers/tasks/firewall_manager.py:373-392 | splits the picked rows into deletes, updates and creates, each in query order; the three are disjoint and cover every picked row once |
| `FirewallTask.PushDeletes` | app/workers/tasks/firewall_manager.py:394-403 | rows and staged list after the delete loop, with the count of successes and failures |
| `FirewallTask.PushUpdates` | app/workers/tasks/firewall_manager.py:405-417 | rows and staged list after the update loop, with the counts |
| `FirewallTask.PushCreates` | app/workers/tasks/firewall_manager.py:419-432 | rows and staged list after the create loop; a created row takes the uuid the appliance issued, and the new rules stand at the end in query order |
| `FirewallTask.ReorderRules` | app/workers/tasks/firewall_manager.py:434-454 | the loop's moves are the reorder of the order it starts from along the sequence order, and nothing else changes |
| `FirewallTask.ReloadAndDrop` | app/workers/tasks/firewall_manager.py:456-470 | the reload and what a failed one does to synced rows; exactly the confirmed deletions are dropped |
| `FirewallTask.ApplyAllPendingRules` | app/workers/tasks/firewall_manager.py:355-495 | the whole task under any failures equals its closed form, the staged order included; applied plus failed is the number of rows picked up |
| `ApplyProperties.RowFate` | app/workers/tasks/firewall_manager.py:386-470 | the fate of each row: dropped, synced or failed, exactly by its push and the reload, with the exception's text cut to 500 characters |
| `ApplyProperties.EveryPickedRowIsResolved` | app/workers/tasks/firewall_manager.py:386-470 | under any failures no row stays pending; synced if and only if push and reload succeeded; a real row is dropped if and only if its delete succeeded |
| `ApplyProperties.SuccessfulApply` | app/workers/tasks/firewall_manager.py:373-470 | with all calls succeeding live equals staged, pending rows are live and every live key carries the column of its name, deletions are gone from both sides, everything else is untouched |
| `ApplyProperties.DroppedRuleStaysLive` | app/workers/tasks/firewall_manager.py:456-468 | a dropped row's rule stays live if and only if the reload failed |
| `ApplyProperties.ApplyOrder` | app/workers/tasks/firewall_manager.py:434-454 | the staged order ends in database order if and only if the anchors are in order in the old list without the deleted rules, with the new ones behind it |
| `ApplyProperties.ApplyOrderFromInputs` | app/workers/tasks/firewall_manager.py:434-454 | with distinct sequences the same for the one listing there is, so that the condition is one on the inputs |
| `ApplyProperties.PresentAfterPush` | app/workers/tasks/firewall_manager.py:394-432 | whether a row's rule is in that list, read off the row and the failing calls |
| `ApplyProperties.ApplyOrdersFirewall` | app/workers/tasks/firewall_manager.py:434-454 | when every row's rule is, or is going to be, on the appliance and none is deleted, the rows' rules end as one block in sequence order |
| `ApplyProperties.ForeignRulesKeepOrder` | app/workers/tasks/firewall_manager.py:434-454 | rules no row holds keep their relative order, whatever fails |
| `ApplyProperties.SyncAfterApplyNormalises` | app/workers/tasks/firewall_manager.py:75-132 | the first sync after a successful apply stores the normal form, which is the row itself if and only if its columns are normal, and pushing plain rows again changes nothing |
| `ApplyExamples.DeletionLeavesApplyUnordered` | app/workers/tasks/firewall_manager.py:373-470 | a table, a staged order and calls that all succeed, after which two rules stand against their sequences |
| `ApplyExamples.DeletedRuleStaysLive` | app/workers/tasks/firewall_manager.py:456-468 | the same table with a failing reload: the deleted rule is still live after the next apply |
| `FirewallSync.SyncFirewallRules` | app/workers/tasks/firewall_manager.py:59-194 | a completed sync refreshes, imports and drops exactly the rows its closed form says; a failed listing or parse changes nothing |
| `SyncProperties.SyncMirrors` | app/workers/tasks/firewall_manager.py:62-181 | synced uuids are exactly the remote ones not held by an unsynced row; their columns are the keys of the listed rules; unsynced rows change only their stamp |
| `SyncProperties.SyncCounts` | app/workers/tasks/firewall_manager.py:69-179 | the final number of rows is the initial one plus added minus deleted |
| `SyncProperties.SecondSyncIsQuiet` | app/workers/tasks/firewall_manager.py:62-181 | an immediate second sync reports no change and changes only stamps |
| `SyncProperties.SyncSettles` | app/workers/tasks/firewall_manager.py:62-181 | any sync ends in a settled table |
| `SyncProperties.SettledIsQuiet` | app/workers/tasks/firewall_manager.py:101-132 | on a settled table a sync reports zero and changes only stamps |
| `FirewallReconcile.SortIsStable` | app/workers/tasks/firewall_manager.py:539 | the sort ascends, is a permutation and keeps equal keys in list order |
| `FirewallReconcile.ReconcileFirewallRules` | app/workers/tasks/firewall_manager.py:529-590 | fails if and only if the listing fails or some listed sequence is rejected by `int`; the former changes nothing, the latter leaves the table empty; otherwise the table is rebuilt from the sorted listing |
| `FirewallReconcile.ReconcileEstablishesOrder` | app/workers/tasks/firewall_manager.py:539-573 | the rebuilt rows have strictly increasing sequences in insertion order and distinct uuids |
| `FirewallReconcile.ReconcileSorts` | app/workers/tasks/firewall_manager.py:539 | the listing can be sorted exactly when every sequence is missing or an integer; rows are inserted in ascending order of those, a missing one as 0 |
| `FirewallReconcile.ReconcileMirrorsListing` | app/workers/tasks/firewall_manager.py:539-575 | every rebuilt row is synced and stamped under a listed uuid, with the keys of the listed rule and the sequence of its place |
| `FirewallReconcile.ReconcileHoldsListing` | app/workers/tasks/firewall_manager.py:541-573 | every listed rule gets exactly one row |
| `FirewallReconcile.UnparsableSequenceEmptiesTable` | app/workers/tasks/firewall_manager.py:531-539 | one rule with the sequence "first" empties the table |
| `FirewallApi.CreateRule` | app/api/firewall_manager.py:227-259 | adds one pending row with a placeholder uuid and the requested or the next hundred as sequence |
| `FirewallApi.UpdateRule` | app/api/firewall_manager.py:302-321 | 404 for an unknown uuid; otherwise that row has exactly the given columns, is pending and has no error, and no other row changes |
| `FirewallApi.DeleteRule` | app/api/firewall_manager.py:361-376 | marks one row for deletion and changes nothing else |
| `FirewallApi.ToggleRule` | app/api/firewall_manager.py:591-602 | flips `enabled` of one row and makes it pending |
| `FirewallApi.RowByRow` | app/api/firewall_manager.py:302-321 | what an update, a deletion mark and a toggle mean for every row of the table, equivalent to the edit of the one row |
| `FirewallApi.MoveRuleUp` | app/api/firewall_manager.py:409-431 | swaps the sequences of the row and the one listed before it, or refuses at the top |
| `FirewallApi.MoveRuleDown` | app/api/firewall_manager.py:469-491 | swaps the sequences of the row and the one listed after it, or refuses at the bottom |
| `FirewallApi.SequenceOrderIsUnique` | app/api/firewall_manager.py:409-411 | with distinct sequences the listing is determined |
| `FirewallApi.MoveTransposes` | app/api/firewall_manager.py:421-431 | after a move the listing is the old one with exactly one adjacent pair exchanged |
| `FirewallApi.MoveWithTieMovesNothing` | app/api/firewall_manager.py:424-428 | no sequence changes if and only if the two were equal |
| `FirewallApi.MovesUndoEachOther` | app/api/firewall_manager.py:395-491 | up then down, or down then up, restores every sequence |
| `FirewallApi.MovesPermute` | app/api/firewall_manager.py:395-491 | any run of moves keeps rows and uuids and permutes distinct sequences |
| `FirewallRuns.NextKeepsInv` | app/workers/tasks/firewall_manager.py:390-432 | every handler and task keeps the invariant that placeholders are never synced and never on the appliance |
| `FirewallRuns.AtMostOneAddPerRow` | app/workers/tasks/firewall_manager.py:419-432 | over every run a row is added successfully at most once, and a placeholder means never added |
| `FirewallRuns.PlaceholdersAreNeverSynced` | app/api/firewall_manager.py:234-257 | over every run no synced row carries a placeholder and no placeholder is on the appliance |
| `FirewallRuns.Perform` | app/api/firewall_manager.py:205-622 | the handlers and tasks, run as code, are the steps of the state machine |
| `FirewallEdits.SequencesAfterEdit` | app/api/firewall_manager.py:227-232 | exactly which API steps keep the sequences distinct: a creation or an update must bring one that no other row has |
| `FirewallEdits.SequencesAfterSync` | app/workers/tasks/firewall_manager.py:75-132 | after a completed sync the sequences differ if and only if those listed for the rules it mirrors differ from each other and from those of the unsynced rows, which differ as well |
| `FirewallEdits.SequencesStayDistinct` | app/api/firewall_manager.py:205-622 | over any history in which no creation, update or sync brings a taken sequence the sequences stay distinct |
| `FirewallEdits.DefaultSequenceCollides` | app/api/firewall_manager.py:227-232 | a table whose next default sequence is taken, and on which a move then changes no sequence |
| `FirewallEdits.DeletionCancelled` | app/api/firewall_manager.py:319-320 | exactly which API steps turn a row marked for deletion back to pending |
| `FirewallEdits.CancelledDeletionStaysLive` | app/api/firewall_manager.py:427-430 | after such a step the next successful apply leaves the rule live |
| `FirewallEdits.UpdateIsEnforced` | app/api/firewall_manager.py:315-320 | after an update and a fully successful apply the rule is live with the new columns, key by key |
| `FirewallEdits.ToggleIsEnforced` | app/api/firewall_manager.py:591-602 | the same for a toggle: the live rule is disabled if it was enabled, and enabled otherwise |
| `FirewallEdits.CreationIsEnforced` | app/api/firewall_manager.py:227-259 | and for a new rule, under the requested sequence or the next hundred |
| `RateLimit.InMemoryRateLimiter.Cleanup` | app/core/rate_limit.py:32-38 | the list of the key is filtered by the cutoff; other keys are untouched |
| `RateLimit.InMemoryRateLimiter.IsAllowed` | app/core/rate_limit.py:40-51 | list and verdict of one request; other keys are unaffected |
| `RateLimit.InMemoryRateLimiter.GetRemaining` | app/core/rate_limit.py:53-56 | purges the key and answers what is left of the limit, never less than 0 |
| `RateBudget.BudgetIsGranted` | app/core/rate_limit.py:53-56 | as many further requests as that are admitted, whenever they come |
| `RateBudget.BudgetRunsOut` | app/core/rate_limit.py:53-56 | and when they come before anything expires, the next one is not |
| `RateLimit.StoredIsFilter` | app/core/rate_limit.py:32-51 | the purged list is the filter of the full admission history |
| `RateLimit.WindowBound` | app/core/rate_limit.py:40-51 | every half-open window of one period holds at most `max_requests` admissions, over any run |
| `RateLimit.HonestRetryHint` | app/core/rate_limit.py:46-48 | a caller that waits the hint with no other request on the key is admitted |
| `RateLimit.TightRetryHint` | app/core/rate_limit.py:46-48 | coming back a whole second before the hint is always rejected |
| `RateLimit.EveryRequestCrashesWithoutLimit` | app/core/rate_limit.py:44-47 | after any run the next request raises the index error if and only if the limit is not positive |
| `RateLimit.RedisRateLimiter.IsAllowed` | app/core/rate_limit.py:106-125 | sorted set and verdict of one request; other keys are unaffected |
| `RateLimit.RedisCountsAllRequests` | app/core/rate_limit.py:109-116 | the set Redis counts is every request of the last period, rejected ones included |
| `RateLimit.RedisAdmission` | app/core/rate_limit.py:115-125 | Redis admits if and only if fewer than `max_requests` requests came in the last period |
| `RateLimit.RedisHintCanLie` | app/core/rate_limit.py:118-122 | a trace on which the client that waits the hint is rejected again |
| `RateLimit.RedisAdmitsLess` | app/core/rate_limit.py:106-125 | on the same trace every request Redis admits the in-memory limiter admits too |
| `RateLimit.MemoryAdmission` | app/core/rate_limit.py:40-51 | on the same traces the in-memory limiter admits exactly below the limit of admissions in the last period |
| `RateLimit.MemoryAdmitsMore` | app/core/rate_limit.py:106-125 | the inclusion is strict |
| `RateLimit.WhenEndpointCrashes` | app/core/rate_limit.py:199-213 | an endpoint's requests raise it if and only if the setting the endpoint reads is not positive; never for intensive endpoints |
| `RateLimit.EndpointBound` | app/core/rate_limit.py:204-213 | over every run, in any window of its period an admin endpoint admits at most the admin setting, an intensive one at most half the general setting but one, any other the general setting |
| `RateLimit.EndpointAdmitsItsLimit` | app/core/rate_limit.py:204-213 | and on a fresh key that many requests are admitted, whenever they come |
| `RateLimit.EndpointKinds` | app/core/rate_limit.py:199-213 | limit and period of each endpoint by name |
| `RedisHint.AdmittedAfterRejection` | app/core/rate_limit.py:106-125 | a later request is admitted if and only if more of the counted requests have expired than their number exceeds the limit |
| `RedisHint.HintIsHonest` | app/core/rate_limit.py:118-122 | waiting the hint is enough if and only if that many expire together with the oldest, all of them within a second of it |
| `RedisHint.LongerWaitIsHonest` | app/core/rate_limit.py:118-122 | once a wait is enough, every longer one is |
| `RedisHint.SingleRequestHint` | app/core/rate_limit.py:118-122 | with a limit of one the hint is honest if and only if it spans the period, which is when the oldest request is at most a second old |
| `AddressPools.Pool.Take` | app/services/ipam.py:12-22 | hands out a free, unlocked row of the wanted ones and locks it; fails if and only if there is none |
| `AddressPools.TakesKeepsPool` | app/services/ipam.py:34-44 | taking a row keeps locks, holders and users consistent |
| `AddressPools.CommitsKeepsPool` | app/api/networks.py:102-105 | committing keeps them consistent |
| `AddressPools.AbortsKeepsPool` | app/core/database.py:34-39 | rolling back keeps them consistent |
| `AddressPools.ReleasesKeepsPool` | app/services/ipam.py:47-63 | a release keeps the pool consistent if and only if nobody else uses the row by then |
| `AddressPools.RowsAreExclusive` | app/services/wireguard_ipam.py:35-50 | no row is in the hands of two open transactions or owners |
| `AddressPools.TakeThenRollback` | app/services/ipam.py:19-22 | a rollback returns what was taken |
| `NetworkPools.SeedGlobalIpPool` | app/services/seed.py:17-49 | row i of the table is the i-th safe, then the i-th overflow subnet |
| `NetworkPools.SeededSubnetsAreDisjoint` | app/services/seed.py:24-42 | different rows are disjoint /24s in their ranges, with the gateway inside |
| `NetworkPools.SeedVlanPool` | app/services/seed.py:52-66 | a pod gets the ids 10 to 4094 |
| `NetworkPools.SeedWireguardPool` | app/services/seed.py:69-89 | the 1024 subnets of 10.200.0.0/14 |
| `NetworkPools.WireguardOverlapsTenants` | app/services/seed.py:34-42 | a tenant subnet is a tunnel subnet if and only if it is one of 1024 overflow rows |
| `NetworkPools.AllocateSubnet` | app/services/ipam.py:5-24 | undisturbed: an overflow row only when every safe row is taken or locked; failure only when no row is free |
| `NetworkPools.AllocateVlan` | app/services/ipam.py:27-44 | a free id of the pod, or failure when it has none |
| `NetworkRuns.LiveNetworksAreDisjoint` | app/api/networks.py:78-105 | live networks have disjoint addresses and, in one pod, different VLAN ids |
| `NetworkRuns.EveryRunIsSafe` | app/api/networks.py:78-105 | over every interleaving that deletes no network twice, the invariant behind it holds |
| `NetworkRuns.OverflowIsLastResort` | app/services/ipam.py:12-22 | in every interleaving: when an overflow row is taken, no safe row was free at the first query, and one that is free by then has been freed in between |
| `NetworkRuns.SafeRowMissed` | app/services/ipam.py:12-22 | a run in which a safe row freed between the two queries is passed over |
| `NetworkRuns.DeleteKeepsInv` | app/api/networks.py:157-176 | a deletion keeps it if and only if nobody else has been given the rows |
| `NetworkRuns.ReusedIsReachable` | app/api/networks.py:78-176 | a run that deletes nothing twice reaches the state in which a second deletion does harm |
| `NetworkRuns.SecondDeleteSharesSubnet` | app/api/networks.py:157-176 | deleting a network twice lets two live networks share a /24 |
| `NetworkRuns.NetworkService.CreateNetwork` | app/api/networks.py:74-105 | fails exactly for want of a pod, a subnet, a VLAN id or a default network, and then changes nothing; success takes one free row of each pool |
| `NetworkRuns.NetworkService.DeleteNetwork` | app/api/networks.py:157-176 | 404, 400 for the default network, otherwise both rows are freed; deleting a live network keeps the invariant |
| `ProvisioningTables.TenantsNeverShare` | app/services/provisioning.py:80-149 | no bridge and no firewall VM id belongs to two tenants |
| `ProvisioningTables.NextKeepsInv` | app/services/provisioning.py:80-149 | approval, reset, manual release, pod and status changes keep bridges, VM ids and pod counts consistent |
| `ProvisioningTables.ApprovalConditions` | app/services/provisioning.py:62-95 | an approval finds a waiting tenant without a bridge, an active pod below its capacity that no other one outranks, and an available bridge |
| `ProvisioningTables.NoTenantInMaintenance` | app/services/provisioning.py:62-77 | over every run: a pod that is not active gets no tenant until it is put back into service |
| `ProvisioningTables.EveryRunKeepsInv` | app/services/provisioning.py:80-149 | over every run of these steps the invariant holds |
| `ProvisioningTables.SeededIsConsistent` | app/main.py:105-115 | the seeded tables satisfy it |
| `ProvisioningTables.HandlerEffects` | app/api/pods.py:55-167 | what the handlers without an allocation write, and that they write nothing else |
| `ProvisioningTables.PodHandlersAccept` | app/api/pods.py:121-164 | a pod can be resized exactly to its count or more, and deleted exactly when it counts nobody |
| `ProvisioningTables.BridgePartition` | app/api/bridge_pool.py:145-173 | a row is available if and only if it is neither held nor leaked, and no leaked row is held |
| `ProvisioningTables.ResetLeaks` | app/api/tenant.py:849-858 | the reset of a tenant in error leaks exactly its bridge row |
| `ProvisioningTables.ReleaseMovesLeak` | app/api/bridge_pool.py:158-173 | a manual release ends the leak, or moves it to the bridge it takes from the tenant |
| `ProvisioningTables.LeaksPersist` | app/api/bridge_pool.py:158-173 | nothing but a manual release of the row ends a leak |
| `ProvisioningTables.OnlyThoseUnstick` | app/api/bridge_pool.py:158-168 | while a tenant waits for its worker it is neither approved nor reset, and exactly a release of a row it owns or a worker's other status ends the wait |
| `ProvisioningTables.StuckUntilUnstuck` | app/services/provisioning.py:90-94 | over every run: it waited throughout if and only if none of these came in between, and a later approval or reset comes after one of them |
| `ProvisioningTables.ReleaseUnsticks` | app/api/bridge_pool.py:158-173 | the release of its row leaves the tenant approvable and the row available |
| `ProvisioningTables.PodCountsApprovals` | app/services/provisioning.py:97-101 | over every run the count of a pod grows by exactly the approvals on it, and its excess over the tenants on it by the approvals of tenants already there |
| `Provisioning.Session.AssignPod` | app/services/provisioning.py:62-77 | an unlocked active pod below its capacity that no fuller one outranks, or none exactly when all unlocked pods are inactive or full |
| `Provisioning.Session.AllocateBridge` | app/services/provisioning.py:11-24 | an available row, taken in the session only, or none when there is none |
| `Provisioning.Session.ReleaseBridge` | app/services/provisioning.py:27-39 | frees a row committed as the tenant's, never the one just taken |
| `Provisioning.Session.ApproveTenant` | app/services/provisioning.py:80-158 | succeeds unless one of seven obstacles is first; success commits the whole approval and the default network; a refusal leaves the committed rows untouched; a task that cannot be queued is reported after the commit |
| `Provisioning.Session.VerifyTenant` | app/api/tenant.py:833-876 | reset, approval or rollback; a refused tenant is never left in error and nothing stays allocated; a failure to queue the task leaves the approval committed and the tenant unverified |
| `Provisioning.UndispatchedIsStuck` | app/services/provisioning.py:90-94 | over every run after that failure: unless one of the tenant's rows is released by hand or a worker writes its status, every verification and approval is refused for the status |
| `Provisioning.ApprovalAddsDefault` | app/services/provisioning.py:114-131 | an approval adds one live default network; the tenant has two or more afterwards if and only if it had one |
| `Provisioning.Session.ReleaseByHand` | app/api/bridge_pool.py:145-175 | refused for unknown or available rows, otherwise the row is freed and its owner stripped |
| `Retries.EveryHistoryIsSound` | app/services/provisioning.py:80-149 | approvals, tenant steps and network transactions interleaved keep both invariants |
| `Retries.ApprovedAddsDefault` | app/services/provisioning.py:112-131 | the subnet query and the commit of an approval together add the default network that `approve_tenant` adds |
| `Retries.ApprovalIsPossible` | app/services/provisioning.py:80-149 | an approval whose conditions are met and that holds a subnet can commit |
| `Retries.DefaultsCountApprovals` | app/services/provisioning.py:114-131 | over every history the live default networks of a tenant grow by exactly one for each approval, and the old ones stay as they were |
| `Retries.OldDefaultKeepsItsSubnet` | app/api/networks.py:163-164 | the subnet of a default network stays in use and no other live network gets it |
| `Retries.RetryFollowsStrip` | app/api/tenant.py:849-858 | between two approvals of a tenant it was reset or a row of it was released by hand |
| `DiskQuota.RoundTenthsIsNearest` | app/services/quota.py:37 | the rounded value is the unique nearest tenth, ties to even |
| `DiskQuota.OverLimit` | app/services/quota.py:107-109 | being over a whole limit is exceeding it by more than 51 MiB |
| `DiskQuota.ProvisionExactly` | app/services/quota.py:52-77 | a VM with an explicit disk size is admitted if and only if the tenant is within every limit afterwards |
| `DiskQuota.FirstVmExactly` | app/services/quota.py:32-77 | what the first VM of a tenant may take, limit by limit |
| `DiskQuota.ResizeExactly` | app/services/quota.py:101-115 | a resize is accepted if and only if the new total is at most 1024 times the limit plus 51 MiB |
| `DiskQuota.SlackIsReached` | app/services/quota.py:107-109 | 51 MiB over the limit is accepted, 52 is not |
| `DiskQuota.RoundingDoesNotAccumulate` | app/services/quota.py:101-115 | over any sequential run at constant quota usage stays within the limits and that slack |
| `DiskQuota.NextKeepsWithin` | app/api/vm.py:1534-1568 | each step stays within, if the disk that grows is no larger than its record |
| `DiskQuota.TotalsFollow` | app/services/quota.py:32-45 | every step changes count, CPU, memory and disk by exactly what it brings or takes |
| `DiskQuota.AcceptedResizeFits` | app/api/vm.py:1534-1568 | after an accepted resize the bound holds if and only if the part of the disk the record did not know fits into the headroom left |
| `DiskQuota.SecondDiskPassesQuota` | app/api/vm.py:1555-1568 | growing an unrecorded disk passes the quota by far |
| `VlanConfig.PutKeepsKeysUnique` | app/workers/modules/opnsense_config_invm.py:321-344 | adding keeps (parent, tag) unique |
| `VlanConfig.RemovalIsComplete` | app/workers/modules/opnsense_config_invm.py:445-457 | after removing the first match none is left if and only if there was no second |
| `VlanConfig.UniqueKeysGoAway` | app/workers/modules/opnsense_config_invm.py:271-287 | with unique keys the removal's verification succeeds |
| `VlanConfig.AddThenRemoveRestores` | app/workers/modules/opnsense_config_invm.py:435-488 | add then remove restores both lists if and only if key, interface name and device were fresh |
| `VlanConfig.ConfigInVM.AddVlanDevice` | app/workers/modules/opnsense_config_invm.py:313-358 | a normal return implies the entry is in the file; it returns normally exactly when the write landed or the entry was there |
| `VlanConfig.ConfigInVM.AddOptInterface` | app/workers/modules/opnsense_config_invm.py:360-404 | the same for the interface entry, with device and address |
| `VlanConfig.ConfigInVM.AddVlan` | app/workers/modules/opnsense_config_invm.py:563-584 | a normal return implies both entries are in the file |
| `VlanConfig.ConfigInVM.RemoveVlan` | app/workers/modules/opnsense_config_invm.py:435-488 | with a parent a normal return means the entry is gone; without one nothing is checked; which device is torn down |
| `Convergence.AuditPartitions` | app/services/reconciler.py:86-132 | every row is exactly one of ghost, drift and synced, every container exactly one of orphan and matched |
| `Convergence.Reconciler.AuditSingleProvider` | app/services/reconciler.py:86-132 | orphans, ghosts, drift and synced by name: a row drifts exactly when one of it and its container is running and the other is not |
| `Convergence.Reconciler.ReconcileSingleProvider` | app/services/reconciler.py:160-233 | nothing without a reachable provider; otherwise the repair and its lists, after which a row runs exactly when its container does |
| `Convergence.RepairConverges` | app/services/reconciler.py:160-233 | a second audit finds only the orphans that could not be removed, and a second repair changes nothing |
| `Convergence.RowsSurviveRun` | app/services/reconciler.py:47-49 | over any run of reconciles the rows survive if and only if none of them had a failed listing and a reachable provider |
| `Convergence.BlindReconcileLosesEverything` | app/services/reconciler.py:160-233 | after such a one the next reconcile removes every container it can |
| `TemplateSync.ActiveIsListed` | app/api/images.py:62-112 | active rows are exactly the listed vmids; an empty listing changes nothing; no row is deleted |
| `TemplateSync.RepeatAddsNothing` | app/api/images.py:62-112 | a repeated sync adds nothing and changes only stamps |
| `TemplateSync.RowAfterSync` | app/api/images.py:69-110 | each row after a sync, column by column: new, revived, stamped, soft-deleted or left alone |
| `TemplateSync.WhenAdmissible` | app/api/images.py:69-110 | the flush, updates by primary key and then inserts, meets no unique constraint if and only if new vmids are listed once, the names written differ from each other, from other providers' and from those of rows that keep theirs, and no revived row takes a name that a revived row behind it still has |
| `TemplateSync.KeptNameBlocksSync` | app/api/images.py:84-95 | a row that is not listed blocks its name under a new vmid |
| `TemplateSync.ExchangeIsRefused` | app/api/images.py:77-82 | two revived rows that exchange names are refused whatever their order |
| `TemplateSync.FreshNamesAreNotEnough` | app/models/image.py:11 | a table and a listing whose final names all differ, refused |
| `TemplateSync.FlushUpdates` | app/models/image.py:11 | the statements pass if and only if each name fits the table as it is when its turn comes |
| `TemplateSync.FlushInserts` | app/models/image.py:10-37 | the same for new rows, with vmid and name |
| `TemplateSync.ImageTable.SyncProxmoxTemplates` | app/api/images.py:47-119 | the table, its key order and the count after a sync, or an unchanged table when it is cached, unlisted or refused; when it is refused, from the table and the listing |
| `LeastFree.Pigeonhole` | app/api/images.py:256-260 | a search never goes further than the number of values in use |
| `LeastFree.Search` | app/api/images.py:256-260 | the loop ends at the least free value, at most start plus the number in use |
| `LeastFree.AllocateBuildVmid` | app/api/images.py:246-260 | the least id from 9000 that neither builds nor the hypervisor use |
| `LeastFree.CreateTunnel` | app/api/wireguard.py:243-256 | the requested port, or the least one no active or provisioning tunnel uses |
| `LeastFree.PendingTunnelSharesPort` | app/api/wireguard.py:247-256 | the next tunnel gets the same port if and only if the first is not yet active or provisioning |
| `PeerAddresses.AllocatePeerIp` | app/services/wireguard_ipam.py:62-91 | the least unrecorded octet above the gateway; raises if and only if all up to 254 are recorded |
| `PeerAddresses.RecordingRoundTrip` | app/services/wireguard_ipam.py:74-82 | an address recorded with /32 is read back, one without is not seen |
| `PeerAddresses.RecordedPeersAreDistinct` | app/services/wireguard_ipam.py:71-91 | recorded with /32, peers get consecutive different addresses over any run |
| `PeerAddresses.BarePeersCollide` | app/workers/tasks/wireguard.py:524-525 | recorded as the task does, every peer of a tunnel gets the same address |
| `PeerAddresses.TwoPeersOneAddress` | app/workers/tasks/wireguard.py:524-525 | two peers of one tunnel, both at 10.200.0.2 |

## Left out

- `apply_opnsense_firewall_task` and `apply_firewall_rule_task`: they mark rows synced without pushing them; nothing in the modelled flow calls them.
- Retrying failed rows, Celery retries, audit records, status broadcasts and the interface cache.
- More than one tenant in the rule table at a time; rows of other tenants never enter a query.
- FirewallModel.RuleTable: rows are a map field that methods reassign, not one heap object per row, so aliasing of row objects is not modelled.
- FirewallApi.UpdateRule: takes all columns at once, those the request does not name with the value the row has; it edits only rule columns; the handler would also take keys such as `uuid` or `apply_status`, which no client is meant to send.
- FirewallApi.MoveRuleUp: the appliance's own renumbering of `sequence` during moves is not modelled.
- The page limit of 1000 listed rules, constant payload keys, column widths, and letter case, digits and blanks beyond ASCII.
- RateLimit.RedisRateLimiter.IsAllowed: does not model Redis outages, the 503 answer or the in-memory fallback; scores are distinct per request.
- The locks of the in-memory limiter: requests are atomic, their two clock readings are kept apart.
- NetworkRuns.NetworkService.CreateNetwork: does not model `tenant_network_id`, which the handler sets from an id not yet assigned, nor what follows the commit: the hypervisor call, and the VLAN task, whose dispatch can raise although the network is committed.
- NetworkRuns.NetworkService.DeleteNetwork: ids are never 0, so the truth tests on `ip_pool_id` and `vlan_id` only tell present from absent; the database wait for a locked row is a precondition.
- Disjointness of WireGuard tunnels from overflow subnets: false, see above.
- Provisioning.Session.ApproveTenant: concurrent approvals of one tenant are not interleaved; the tenant row is not locked by the code. VM name, LAN address and DHCP range are not part of the row.
- The admin endpoint that approves a tenant: a stricter status check before the same approval.
- Deleting a tenant: the database refuses it once a network row names the tenant, and a tenant that was never approved holds nothing.
- Worker tasks that provision or destroy a tenant: they appear only as arbitrary status changes (`ProvisioningTables.Event.Report`).
- DiskQuota.NextKeepsWithin: requires that the disk that grows is not larger than its VM's record; without that the property is false, see above.
- VM provisioning without an explicit disk size: the quota check is given 0 while the template's size is recorded.
- VlanConfig.ConfigInVM.AddVlan: PHP and XML text, file locking, the constants `pcp`, `proto`, `ipaddrv6`, `blockpriv` and `blockbogons`, and the caching of `_agent_verified` are not modelled.
- IP reservations released for ghost VMs, and the dead import beside them.
- TemplateSync.ImageTable.SyncProxmoxTemplates: categories, visibility and the cache's expiry are not modelled; new rows take the next keys in listing order; a commit may also fail for reasons of the database's own.
- VM status transitions, WireGuard rule diffs, Terraform, Packer, authentication, Vault, schemas and read-only endpoints.
