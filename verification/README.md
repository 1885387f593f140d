# Type registry: a verified model of its store

The registry hands out integer type values. Each namespace keeps a cursor (`next_value`), optional
bounds, a list of reserved ranges and an append-only table of entries; allocation reuses released values
first, revocation releases them, and startup recomputes every cursor. This project models that store, its
transactions, the label index of namespaces, the one-time migration of the older schema and the paging of
search results, and proves what they keep.

`dafny verify dfyconfig.toml` checks everything.

## Layout

| file | contents |
|---|---|
| `Basics.dfy` | options and results; what MIN, MAX and ORDER BY return |
| `Ranges.dfy` | reserved ranges, their decoding order, the skip over reserved values |
| `Candidates.dfy` | the value a global or a reserved allocation takes, on sets of values; the cursor invariant step by step |
| `Spaces.dfy` | one namespace: entries, single inserts, batches, revocations, recalculation, bound changes |
| `Allocator.dfy` | the row loops of allocation and revocation as methods |
| `NamespaceRules.dfy` | increasing batches, one holder per value, range exclusivity, the maximum, the high-water rule |
| `OwnGrants.dfy` | how a batch uses up its project's values; exactly when live values stay within the maximum |
| `CursorRules.dfy` | exactly which steps lose a released value; when the cursor is the next value |
| `RoundTrip.dfy` | allocate, revoke, allocate |
| `Restart.dfy`, `RestartEverywhere.dfy` | when recalculating cursors is visible, in a namespace and in the registry |
| `RevocationRules.dfy` | revoking a batch against revoking its entries; revoking again |
| `Registry.dfy` | all namespaces, commands and whole runs of them |
| `CommandRules.dfy` | what each command does to rows and columns and when it is refused, said of requests and tables |
| `Store.dfy` | the tables as an object whose methods update them |
| `Protocol.dfy`, `ProtocolProofs.dfy` | the store's writers as concurrent transactions; every interleaving |
| `ProtocolProgress.dfy` | transactions that would succeed alone can be carried to their commit |
| `Labels.dfy`, `LabelStore.dfy` | codes, display names and aliases; the scanning and splicing loops |
| `LabelRules.dfy` | when a label change is refused, what it does to the rows, and every other label's answer |
| `Migration.dfy`, `MigrationRun.dfy` | counting arguments; the upgrade as it runs |
| `Paging.dfy` | page arithmetic |

Six expectations do not hold of the code as they stand, and are settled as follows.

- A cursor can hide a released value. `CursorRules.ReservedGrantCanLose`, `LoweredMinimumCanLose` and
  `RecomputingCanLose` give concrete cases; `CursorRules.CoversExactly` says for every transaction exactly
  when it happens, as a condition on the state before it. For a batch: the project owns a free value above
  the least released one waiting, and the batch is larger than the number it owns below it.
- A live value can exceed the maximum, because the migration takes over reserved ranges without comparing
  them to the bounds. `OwnGrants.UpperBoundExactly`: no run of a new namespace does it exactly when no
  range that belongs to a project ends above the maximum. From an accepted bound change on, every range is
  inside (`NamespaceRules.ApplyWithinMax`).
- A restart can be visible. `Restart.RestartTransparentExactly`: no run of global allocations and
  revocations can tell exactly when a minimum is set or the first value the namespace would issue is at
  least 1 (or there is none).
- Revoking an allocation is not always revoking its entries one by one
  (`RevocationRules.MixedAllocationDiffers`); `RevocationRules.BatchIsEachExactly` has the exact condition.
  No operation deprecates an entry, so in every run that starts without DEPRECATED entries the two agree
  (`RevocationRules.BatchIsEachInRuns`).
- Equal row counts alone do not show that the migration lost nothing (`Migration.CountsCanHideALoss`,
  `ListCountsCanHideALoss`, and a whole upgrade in `MigrationRun.UpgradeCanLose`). `Migration.ListCounts`
  and `LinkCounts`: of "counts agree", "nothing lost" and "no unrelated list or entry was filled before",
  any two imply the third.
- A page past the end need not be empty (`Paging.PastTheEndNotEmpty`), because its offset is kept to 64
  bits. `Paging.EmptyExactly` says which pages are.

## Model

| member | source | states |
|---|---|---|
| Ranges.DecodeReservedRanges | internal/store/namespace.go:382-400 | the decoded ranges are the stored ones, as a multiset, ordered by start and then end |
| Ranges.LeastUnreserved | internal/store/entry.go:561-583 | the least value from the candidate on that lies in no range and not above the maximum; none exactly when a maximum is set and every value up to it is reserved |
| Ranges.NextNonReservedValue | internal/store/entry.go:561-583 | the jumping loop ends for overlapping and nested ranges (fewer ranges end at or after the candidate each time round) and finds that least value |
| Ranges.FirstHolding | internal/store/entry.go:568-577 | the inner scan stops at the first range, in list order, that holds the candidate |
| Allocator.FirstGap | internal/store/entry.go:458-479 | over ordered rows, repeats allowed, the least value of the interval not among them; none exactly when all are |
| Allocator.FirstFreeInRange | internal/store/entry.go:448-480 | the least value of [start, end] no non-REVOKED entry holds; none exactly when every value is held or the interval is empty |
| Allocator.FirstReusable | internal/store/entry.go:506-521 | the least row within the maximum and outside every range, if there is one |
| Allocator.ReusableRowsMeaning | internal/store/entry.go:488-501 | the NOT EXISTS query returns exactly the values from the floor on that were registered and are held by no non-REVOKED entry |
| Allocator.ReusableCandidate | internal/store/entry.go:488-531 | the least reusable value at or above the floor, or none |
| Allocator.NextGlobalCandidate | internal/store/entry.go:482-550 | the loops compute the set-based global choice `NextGlobal`, whose meaning the `Candidates` lemmas give |
| Allocator.ChooseCandidate | internal/store/entry.go:429-446 | trying the project's ranges in decoded order gives the least free value of all of them, else the global choice |
| Allocator.LeastOfOwn | internal/store/entry.go:431-442 | because ranges are ordered by start, the first range with a free value holds the project's least free value |
| Allocator.OwnCandidate | internal/store/entry.go:430-443 | the loop over the project's ranges finds that value, or none exactly when the project owns no free value |
| Allocator.GrantNext | internal/store/entry.go:178-211 | one pass of the batch loop is `Grant`: choose, insert, move the cursor unless a reserved grant lies below it |
| Allocator.GrantLoop | internal/store/entry.go:177-229 | the loop yields all grants of the batch, or the first failure |
| Allocator.AnyRefused | internal/store/entry.go:345-357 | refuses exactly when a target is DEPRECATED |
| Allocator.RevokeLoop | internal/store/entry.go:369-384 | exactly the ACTIVE targets become REVOKED, and the least of their values is found |
| Allocator.BoundsFit | internal/store/namespace.go:501-525 | accepts new bounds exactly when they cut off no reserved range and no live value |
| Allocator.NoOverflow | internal/store/entry.go:482-583 | with values and range ends below 2^63-1 (so that the increment past either stays inside 64 bits), a search that starts inside 64 bits steps above the largest value, skips reserved values and ends inside them |
| Allocator.CursorFits | internal/store/entry.go:199-211 | so does every cursor written after a grant or by recalculation |
| Candidates.NextGlobalFresh | internal/store/entry.go:533-549 | with nothing to reuse, the result is the least unreserved value in bounds, not below the start and above everything registered; none exactly when there is no such value |
| Candidates.NextGlobalSound | internal/store/entry.go:482-550 | every result is free, unreserved, in bounds and not below the start; a never registered one exceeds everything registered |
| Candidates.NextGlobalMeans | internal/store/entry.go:482-550 | from any start, without assuming anything of the cursor: the least released value from the start on, else the least fresh one from there on, else nothing |
| Candidates.NextGlobalIdempotent | internal/store/entry.go:482-550 | searching from the value found finds it again |
| Candidates.GlobalIsLeastReleasedElseFresh | internal/store/entry.go:429-550 | under the cursor invariant: the least released value in bounds, else the least fresh value, and exhaustion exactly when neither exists |
| Candidates.PastCovers | internal/store/entry.go:199-211 | the cursor written after a grant exceeds the grant and skips no released value above it |
| Candidates.CursorAfterGlobal | internal/store/entry.go:199-211 | a global grant keeps the cursor invariant |
| Candidates.CursorAfterOwn | internal/store/entry.go:199-211 | a reserved grant keeps it exactly when it lies below the cursor or no released value waits below it |
| Candidates.CursorAfterRelease | internal/store/entry.go:293-298 | LEAST keeps it |
| Candidates.CursorAfterNewBounds | internal/store/namespace.go:527-535 | new bounds keep it exactly when no released value lies below the cursor in the window a lower minimum opens |
| Candidates.RecomputedCovers | internal/store/entry.go:623-637 | recalculation establishes it exactly when a minimum is set or no reusable value lies below where the search starts |
| Spaces.GrantFacts | internal/store/entry.go:178-211 | a grant adds one ACTIVE row under a new id with a value no live row holds, registers that value and changes only the cursor besides |
| Spaces.ValueKeyNeverHit | internal/store/migrations/001_init.sql:43-44 | an insert fails for exhaustion, a symbol in use or a used id, never for a value in use: the unique key on live values is never what refuses it |
| Spaces.UsageAfterRevoke | internal/store/entry.go:287-298 | revoking unregisters nothing, and frees exactly the released values when values have single holders |
| NamespaceRules.GrantAdvances | internal/store/entry.go:178-211 | the cursor ends beyond the grant and never moves back, and the project's remaining free values lie above it |
| NamespaceRules.BatchIncreasing | internal/store/entry.go:177-229 | a batch's values strictly increase, also across several overlapping ranges and into the global area |
| NamespaceRules.BatchFrame | internal/store/entry.go:177-229 | a batch adds exactly one row per value, in order, and leaves every other row, the bounds and the status as they were |
| NamespaceRules.BatchPrefix | internal/store/entry.go:177-229 | a shorter batch would have got a prefix of the longer one's values |
| NamespaceRules.ApplyUnique | internal/store/entry.go:148-398 | every transaction keeps each live value with a single holder, whatever the ranges and bounds |
| NamespaceRules.RunUnique | internal/store/entry.go:148-398 | so does every run |
| NamespaceRules.RunRightful | internal/store/entry.go:429-446 | whatever a namespace starts from, every row a run adds in a reserved range belongs to a project a range holding its value names, and no row changes hands |
| NamespaceRules.ApplyWithinMax | internal/store/namespace.go:505-535 | with no project's range ending above the maximum, no transaction puts a live value above it; an accepted bound change leaves every range inside the new bounds |
| NamespaceRules.RunWithinMax | internal/store/namespace.go:505-535 | so does every run, and ranges once inside the bounds stay inside |
| OwnGrants.UpperBoundExactly | internal/store/db.go:415-450 | all runs of a new namespace stay within the maximum exactly when no range belonging to a project ends above it |
| OwnGrants.BatchTakesLeast | internal/store/entry.go:429-480 | while the project owns free values a batch takes the least of them, as many as it is long, and touches no released value |
| NamespaceRules.BlockedNeverIssued | internal/store/entry.go:552-559 | no row a run adds holds a value that only ranges without a project hold, not even one registered earlier and released |
| NamespaceRules.HighWaterRule | internal/store/entry.go:533-549 | over a run, globally issued never registered values strictly increase, and those of each transaction exceed everything registered before that transaction |
| NamespaceRules.HighWaterInBatch | internal/store/entry.go:533-549 | within a batch each such value exceeds everything registered before it, the batch's own earlier values included |
| NamespaceRules.HoleNeverIssued | internal/store/entry.go:488-549 | an unregistered unreserved value with something registered above it stays so for ever |
| CursorRules.CoversExactly | internal/store/entry.go:199-211 | the cursor invariant survives a successful transaction exactly when, in the state before it, none of these holds: a batch longer than the number of free values its project owns below the least waiting released value, while it owns one above; a minimum lowered onto a waiting value; a recalculation without minimum above one |
| CursorRules.BatchJumpsExactly | internal/store/entry.go:177-211 | that condition on a batch holds exactly when one of its grants comes from a range at or above the cursor with a released value waiting below |
| CursorRules.ReleasedStayWithinReach | internal/store/entry.go:429-550 | from any cursor that hides nothing, after any run without such a step the next global allocation is the cursor-free rule |
| CursorRules.NewCovers | internal/store/namespace.go:462-465 | a new namespace's cursor hides nothing |
| CursorRules.ReservedGrantCanLose | internal/store/entry.go:199-211 | a concrete reserved grant that puts the cursor past a released value |
| CursorRules.LoweredMinimumCanLose | internal/store/namespace.go:527-529 | a concrete lowering of the minimum that does |
| CursorRules.RecomputingCanLose | internal/store/entry.go:623-637 | a concrete recalculation without minimum that does |
| CursorRules.ExactMeans | internal/store/entry.go:482-550 | a search from k finds k exactly when k is in bounds, unreserved, and released or above everything registered |
| CursorRules.CursorIsNextValue | internal/store/entry.go:199-211 | without maximum and ranges, after any run without bound changes, the stored cursor is the first value the next allocation returns |
| RoundTrip.BatchIsGlobalRun | internal/store/entry.go:177-229 | a batch of a project without ranges is a sequence of global searches, each from the cursor the last one left |
| RoundTrip.RevokedBatch | internal/store/entry.go:369-392 | revoking a batch frees exactly its values and leaves the cursor at the first of them |
| RoundTrip.AllocateRevokeAllocate | internal/store/entry.go:148-398 | a global batch, its revocation and another batch of that size: the same values in the same order, whatever was reused and what was new |
| Restart.FaithfulAgree | internal/store/entry.go:482-550 | two cursors at or below every reusable and the first fresh value find the same value |
| Restart.AlikeStep | internal/store/entry.go:148-398 | bisimulation: namespaces differing only in such cursors answer alike and stay alike |
| Restart.AlikeRecalculate | internal/store/entry.go:585-641 | recalculation leads to such a cursor |
| Restart.RestartTransparent | internal/store/db.go:327-354 | recalculations inserted anywhere into a run of global allocations and revocations change no answer |
| Restart.RestartVisible | internal/store/entry.go:623-637 | otherwise some run of an empty namespace shows the restart |
| Restart.RestartTransparentExactly | internal/store/entry.go:623-637 | transparency for all runs holds exactly when a minimum is set, or the first value to be issued is at least 1, or there is none |
| RestartEverywhere.ExecAlike | internal/store/entry.go:148-398 | registries that differ only in cursors hiding nothing reply alike to every command and stay alike |
| RestartEverywhere.RestartsUnseen | internal/store/db.go:327-354 | restarts of the whole registry, inserted anywhere into a run of creations, global allocations and revocations, change no reply |
| RevocationRules.EachIsAll | internal/store/entry.go:245-304 | entries revoked one by one, in any order, refusals included, end like one revocation of the set: same statuses, same cursor |
| RevocationRules.BatchIsEachExactly | internal/store/entry.go:306-398 | revoking the allocation equals that exactly when no entry is DEPRECATED or none is ACTIVE |
| RevocationRules.MixedAllocationDiffers | internal/store/entry.go:345-357 | one ACTIVE and one DEPRECATED entry: the allocation is refused, the ACTIVE entry alone is not |
| RevocationRules.BatchIsEachInRuns | internal/store/entry.go:245-398 | in every run that starts without DEPRECATED entries the two are equal, without condition |
| RevocationRules.RunKeepsRevoked | internal/store/entry.go:306-398 | a revoked allocation stays revoked through any run that does not draw its token again |
| RevocationRules.RevokingAgainChangesNothing | internal/store/entry.go:369-392 | revoking it again later succeeds and changes nothing, whoever holds its values by then |
| Registry.HomeIsUnique | internal/store/entry.go:313-325 | the namespace found by the allocation's first row is the only one with rows of it |
| Registry.RevokeIsLocal | internal/store/entry.go:306-398 | so revoking an allocation by token over the whole table is a transaction of that namespace |
| Registry.ExecIsLocal | internal/store/entry.go:148-398 | a command changes a namespace only by that namespace's own transaction |
| Registry.ExecConsistent | internal/store/entry.go:148-398 | a command keeps ids apart, allocations together, drawn ids below the counter and a single holder per value |
| Registry.RunsStayConsistent | internal/store/entry.go:148-398 | so does every run, from any state that has these |
| Registry.NamespacesKeepRules | internal/store/entry.go:148-398 | over registry runs too, reserved ranges stay with their projects and live values within the maximum |
| Registry.RunIsLocal | internal/store/namespace.go:420-448 | each namespace's part of a registry run is a run of its own transactions, so the namespace theorems hold in the registry |
| Registry.AllocationRevokedAsEntries | internal/store/entry.go:245-398 | the registry-wide form of `BatchIsEachExactly` |
| CommandRules.CreateMeans | internal/service/registry.go:63-75 | a creation is refused exactly for unordered bounds, a start outside them or an id in use; else an empty active namespace has the given bounds and start and every other is unchanged |
| CommandRules.FirstAllocationIsStart | internal/store/namespace.go:451-465 | after an accepted creation the first single allocation grants exactly the requested start |
| CommandRules.UpdateMeans | internal/store/namespace.go:482-543 | accepted exactly when the bounds are ordered, cut off no range and have no live row above them; then bounds and status are the requested ones, rows and ranges kept, the cursor the larger of the old one and the minimum; else nothing changes |
| CommandRules.ChangeMeans | internal/store/namespace.go:482-543 | the command's reply and its effect on all namespaces, each refusal with its reason |
| CommandRules.StatusDecides | internal/store/namespace.go:431-433 | after an accepted change every allocation is refused as not active exactly when the requested status was inactive |
| CommandRules.RecalculateMeans | internal/store/entry.go:585-641 | the cursor is the least released, else the least fresh value from the minimum or 1 on, else one past the maximum or the start; rows, bounds and status are kept, and an empty namespace is unchanged |
| CommandRules.RestartMeans | internal/store/db.go:327-354 | so it is for every namespace, and nothing else changes |
| CommandRules.ChosenMeans | internal/store/entry.go:429-446 | the least free value of the project's ranges when there is one, else what the global search finds |
| CommandRules.GrantMeans | internal/store/entry.go:178-211 | one grant: that value in one new ACTIVE row with the caller's symbol and project, and exactly where the cursor goes |
| CommandRules.AllocateMeans | internal/store/entry.go:148-235 | an answered allocation has exactly the requested number of new rows under a token no row had, in id order with the answered values, each ACTIVE with the caller's symbol and project; every other row, the bounds, the status and every other namespace are unchanged |
| CommandRules.AllocateSteps | internal/store/entry.go:177-229 | its values, in order, are those of that many grants, each made in the namespace the one before left |
| CommandRules.AllocateRefusals | internal/store/entry.go:148-192 | each refusal leaves the store alone; exactly when a count, a missing or an inactive namespace is the reason; a symbol a live row holds, or one for several rows, never gets a value, and nothing else conflicts |
| CommandRules.ExhaustedMeans | internal/store/entry.go:429-446 | a single allocation is refused as exhausted exactly when the project owns no free value and the search finds none |
| CommandRules.RevokeEntryMeans | internal/store/entry.go:245-304 | not found for an id in no namespace, refused for a DEPRECATED row, nothing changed for a REVOKED one; an ACTIVE one becomes REVOKED and pulls the cursor back to its value |
| CommandRules.RevokeAllocationMeans | internal/store/entry.go:306-398 | invalid, not found and refused cases; else exactly the ACTIVE rows of the allocation become REVOKED and the cursor is the least of what it was and their values |
| Store.RunBatch | internal/store/entry.go:148-235 | the batch loop run with a fresh token and fresh ids is the allocation command, whose meaning `CommandRules.AllocateMeans` gives |
| Store.RevokeAndRelease | internal/store/entry.go:369-392 | row by row over all namespaces: every row of the allocation revoked, one cursor pulled back to the least released value |
| Store.TypeStore.CreateNamespace | internal/store/namespace.go:450-480 | new empty namespace at the start value, or the refusals of `internal/service/registry.go` lines 63-75 and the unique code; `CommandRules.CreateMeans` says what that is; keeps consistency |
| Store.TypeStore.UpdateNamespace | internal/store/namespace.go:482-543 | the new state and reply of a bound or status change, refusals included; `CommandRules.ChangeMeans` says what they are; keeps consistency |
| Store.TypeStore.AllocateBatch | internal/store/entry.go:148-235 | the new state and reply of an allocation: everything or nothing; `CommandRules.AllocateMeans` and `AllocateRefusals` say what they are; keeps consistency |
| Store.TypeStore.RevokeEntry | internal/store/entry.go:245-304 | the new state and reply of revoking one entry, already revoked and refused ones included; keeps consistency |
| Store.TypeStore.RevokeAllocation | internal/store/entry.go:306-398 | the new state and reply of revoking an allocation, wherever its rows lie; keeps consistency |
| Store.TypeStore.RecalculateAll | internal/store/db.go:327-354 | every cursor recalculated once, nothing else changed; `CommandRules.RestartMeans` says to what; keeps consistency |
| Store.TypeStore.RecalculateCursor | internal/store/entry.go:585-641 | one namespace's cursor recalculated, an empty one left alone, a missing one refused; `CommandRules.RecalculateMeans` says to what |
| ProtocolProofs.StepKeeps | internal/store/entry.go:148-398 | every step of every transaction, bound changes and recalculations included, keeps the protocol invariant |
| ProtocolProofs.FinishedIsAlone | internal/store/entry.go:231-398 | a transaction about to commit has done, and answers, what it would alone on the committed tables, although it found its namespace before holding the lock |
| ProtocolProofs.Serializable | internal/store/namespace.go:420-448 | in every interleaving the committed tables are those of the committed transactions run serially in commit order, and each of them answered, granted values in order, what it answers in that run |
| ProtocolProofs.OneHolderEverywhere | internal/store/entry.go:148-235 | in every reachable state, over committed rows and all writes in flight, each namespace value has at most one holder |
| ProtocolProofs.ValueKeyNeverDecides | internal/store/migrations/001_init.sql:43-44 | in every reachable state the value about to be inserted is held by no row, committed or in flight; an insert is refused exactly for a symbol in use |
| ProtocolProofs.BatchesLandWhole | internal/store/entry.go:231-234 | a committed batch has exactly the rows it asked for, in number too; every new row belongs to a committed batch, and nothing of a running one is visible |
| ProtocolProgress.SucceedsWhenUnlocked | internal/store/entry.go:148-398 | from every reachable state, a new transaction that would succeed alone and whose namespace nobody has locked commits by steps of its own, with the tables and reply of running alone, and moves nothing else |
| ProtocolProgress.HolderCanStop | internal/store/entry.go:158-162 | whoever holds a lock can roll back, which frees it and leaves tables and log alone |
| Labels.NextAliasId | internal/store/namespace.go:208-213 | positive and above every alias id of the namespace |
| Labels.RunGood | internal/store/namespace.go:92-270 | over any run of creations, renamings, alias additions and deletions no label belongs to two namespaces, and alias texts and ids are distinct within each |
| Labels.ResolveFindsOwner | internal/store/namespace.go:272-325 | then resolving is never ambiguous, finds a namespace exactly when the label is one of its own, and names the matching label |
| Labels.ResolveAfterRun | internal/store/namespace.go:272-325 | after any run a label resolves to the one namespace that owns it |
| Labels.ResolveIgnoresOrder | internal/store/namespace.go:281-309 | the result does not depend on the order of the rows |
| Labels.CreatedResolves | internal/service/registry.go:77-92 | a created namespace is found by code and by display name |
| Labels.RenamedResolves | internal/service/registry.go:120-132 | a renamed one by its new name, otherwise unchanged; its old name, unless it is the code or the new name too, finds nothing |
| Labels.AddedAliasResolves | internal/store/namespace.go:151-232 | an added alias finds its namespace, as that alias |
| Labels.DroppedAliasUnknown | internal/store/namespace.go:234-270 | a deleted alias finds nothing |
| Labels.AddThenDrop | internal/store/namespace.go:151-270 | deleting an alias by the id it was given restores the table |
| LabelRules.CreationMeans | internal/service/registry.go:77-92 | created exactly when code and name are non-empty and neither is a label of any row; every earlier row stays in place |
| LabelRules.RenameMeans | internal/service/registry.go:95-133 | refused for an empty code or name, a missing namespace, or a name that is another row's label or any alias; else only that row changes, and only in its name |
| LabelRules.AddAliasMeans | internal/service/registry.go:163-187 | refused for a missing namespace, an empty alias or the namespace's own code or name, or a label of any row; else only that row changes, by one last alias under the next id |
| LabelRules.DropAliasMeans | internal/store/namespace.go:234-270 | refused for a non-positive id, a missing namespace or alias; else only that row changes, and lacks that alias only |
| LabelRules.CreationFrame | internal/store/namespace.go:272-325 | after a creation every query but the two new labels resolves exactly as before |
| LabelRules.RenameFrame | internal/store/namespace.go:272-325 | after a renaming every query but the old and the new name resolves as before, to the row as renamed |
| LabelRules.AddAliasFrame | internal/store/namespace.go:272-325 | after an alias is added every other query resolves as before |
| LabelRules.DropAliasFrame | internal/store/namespace.go:272-325 | after one is deleted every other query resolves as before |
| LabelStore.FreshAliasId | internal/store/namespace.go:208-213 | the loop computes that id |
| LabelStore.FindAlias | internal/store/namespace.go:251-260 | the first alias with the id, or none |
| LabelStore.NamespaceTable.LabelExists | internal/store/namespace.go:92-119 | true exactly when some row owns the label |
| LabelStore.NamespaceTable.LabelExistsExcept | internal/store/namespace.go:121-149 | true exactly when another row's code or name, or any row's alias, is the label |
| LabelStore.NamespaceTable.CreateNamespace | internal/service/registry.go:42-93 | the new rows or the refusal; `LabelRules.CreationMeans` and `CreationFrame` say what they are; keeps the label invariant |
| LabelStore.NamespaceTable.UpdateNamespace | internal/service/registry.go:95-133 | the renamed row or the refusal; keeps the label invariant |
| LabelStore.NamespaceTable.InsertAlias | internal/store/namespace.go:151-232 | the scan refuses a taken label before it reports a missing namespace; else the alias is appended to the row with that id only |
| LabelStore.NamespaceTable.CreateNamespaceAlias | internal/service/registry.go:163-187 | the appended alias or the refusal; keeps the label invariant |
| LabelStore.NamespaceTable.DeleteNamespaceAlias | internal/store/namespace.go:234-270 | the spliced list or the refusal; keeps the label invariant |
| LabelStore.NamespaceTable.ResolveNamespace | internal/store/namespace.go:272-325 | the row loop computes `Resolve` |
| Migration.GroupedTotal | internal/store/db.go:378-450 | the lists' total length afterwards is the number of rows with an existing namespace plus the lengths of the lists not written |
| Migration.RowPlace | internal/store/db.go:392-402 | each row sits in its namespace's list at the place its reading order gives it |
| Migration.ListCounts | internal/store/db.go:506-535 | for aliases and ranges: of equal counts, nothing lost, and no unrelated list filled before, any two imply the third |
| Migration.LinkCounts | internal/store/db.go:452-535 | for links and revocations, whichever matching row the join picked: of equal counts, every row on a distinct existing entry with its data, and no unrelated entry filled before, any two imply the third |
| Migration.CountsCanHideALoss | internal/store/db.go:517-535 | a concrete join with equal counts and a lost row |
| Migration.ListCountsCanHideALoss | internal/store/db.go:517-535 | concrete lists with equal counts and a lost row |
| MigrationRun.GroupRows | internal/store/db.go:392-402 | the map holds each namespace's rows in reading order, and only namespaces that have rows |
| MigrationRun.WriteLists | internal/store/db.go:403-411 | in any order of the map, exactly the existing namespaces with rows get their list |
| MigrationRun.UpdateJoin | internal/store/db.go:452-480 | every entry with matching rows gets the data of one of them, other entries keep theirs |
| MigrationRun.CountOrphans | internal/store/db.go:537-560 | zero exactly when every header has a link; without a link table, when there is no header |
| MigrationRun.Database.Validate | internal/store/db.go:506-563 | passes exactly when all four counts agree and every header has a row in the link table |
| MigrationRun.Database.NormalizeEntries | internal/store/db.go:231-249 | each entry's status and revocation time are settled as the two updates do |
| MigrationRun.SettlingKeeps | internal/store/db.go:231-249 | settling neither loses nor repairs a copied revocation |
| MigrationRun.Database.CopyAndCheck | internal/store/db.go:114-131 | both list columns and both joined entry columns take in their legacy tables, nothing else changes, and the checks say whether all counts agree |
| MigrationRun.Database.Upgrade | internal/store/db.go:77-165 | that, then entry states settled (a missing revocation time becomes the creation time) and legacy tables dropped exactly when all counts agree and every header has a link row, all left in place otherwise; after a success each table lost nothing exactly when nothing unrelated was filled before |
| MigrationRun.UpgradeCanLose | internal/store/db.go:77-165 | a concrete upgrade that succeeds and loses an alias |
| Paging.AllPages | internal/httpapi/api.go:211-247 | pages 1 to totalPages are the ranked list of matches, each match exactly once, no page empty or longer than the page size |
| Paging.OneRanking | internal/store/entry.go:56-64 | the (time desc, id desc) order determines the list |
| Paging.PageCount | internal/httpapi/api.go:237-240 | the number of pages is enough and the last one is needed |
| Paging.PageExactly | internal/store/entry.go:16-24 | whatever the page number: the stretch at its offset, or the first page when the 64-bit offset is negative |
| Paging.PageAsked | internal/httpapi/api.go:211-231 | a size from 1 to 200 is used as asked, from `limit` when there is no page size, any other is 50; the page is that many rows from its place on, and a page number below 1 is page 1 |
| Paging.FirstFifty | internal/httpapi/api.go:211-231 | a search without page and size is the first 50 ranked matches |
| Paging.EmptyExactly | internal/httpapi/api.go:211-247 | a page is empty exactly when nothing matches or its 64-bit offset is at or past the end |
| Paging.PastTheEndNotEmpty | internal/store/entry.go:21-24 | a concrete page past the end that is page 1 again |

## Left out

- Registry.System: entry ids and allocation tokens come from one counter; that AUTO_INCREMENT and the random 128-bit tokens never repeat is taken for granted.
- Registry.Db: rows of `type_entries` are grouped by `namespace_id`, and namespaces are addressed by id, not by code; the label model has codes.
- ProtocolProofs.Serializable: row locks, read-committed visibility and atomic commits are steps of the model, not derived; namespace creation and label changes are not among the concurrent programs.
- Protocol.Do: a revocation that finds its namespace may find any one that has a matching row; the sequential model takes the one with the least id, which is the same one in every consistent state.
- Ranges.ReservedRange: project names are already trimmed and folded, so is the requested project; the canonical spelling kept in `projects` and its insertion are not modelled. Only the migration writes reserved ranges, so they are fixed during a run.
- Spaces.Entry: allocation ids are numbers, 0 for the empty one a row registered without an allocation carries; symbols are compared by equality of folded keys; descriptions, requesters, addresses, reasons and timestamps are dropped.
- Store.TypeStore.AllocateBatch: the service's limit of 100 and its refusal of a symbol for a larger batch are left out; the store's own behaviour for any positive count is modelled.
- Ranges.DecodeReservedRanges: the in-place sort is a sorting function; ranges with equal bounds may be listed in any order, which no result depends on.
- Store.TypeStore.CreateNamespace: takes the start value; a request without one starts at 1.
- Allocator.NoOverflow: the methods compute with unbounded integers; this lemma and `CursorFits` are what ties them to 64 bits.
- Labels.RunGood: one folding function stands for both the database collation and the program's comparison, which differ on accents; changes come one after the other, the check-then-insert race of two creations is not modelled; trimming and length checks are left out.
- LabelStore.NamespaceTable.UpdateNamespace: only the display name; bounds and status are in `Store.TypeStore.UpdateNamespace`.
- MigrationRun.Database.Upgrade: column and index changes, the audit log, project backfill and a stop in the middle of the drops are left out; the final recalculation of cursors is `Store.TypeStore.RecalculateAll`. Descriptions, creation times and ids inside the lists are not carried.
- Paging.AllPages: the search predicate is any predicate on rows; the table does not change between pages, and has fewer than 2^63 - 200 matches.
- DEPRECATED entries are read by the model, but no operation of the store sets that status.
- HTTP routing, JSON, logging, configuration, the command line and Python clients, the web interface, package building, version notices and proxy address selection are plumbing.
- Validate, the symbol pattern and length limits are settled by reading one branch.
