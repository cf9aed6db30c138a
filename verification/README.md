# Verified model of the MLflow OIDC auth plugin

A Dafny model of the stateful parts of the plugin that puts OIDC authentication and per-resource
permissions in front of MLflow, with proofs of what those parts promise over whole requests,
sessions and runs. `dafny verify dfyconfig.toml` checks everything.

## What is modelled

- **Search filtering** (`SearchFilter`, `SearchPages`, `LoggedModels`). Unreadable results are
  removed from a page in place and the page is refilled by refetching, with continuation offsets
  computed by hand. MLflow's search is a window on a fixed list, with a token exactly when more
  follows. The reference is a scan of that list one entry at a time; the handlers are proved to
  compute its pages, and following the tokens to deliver exactly the filter of the list.
- **Permission resolution** (`Permissions`, `GroupFold`, `Resolution`, `Answers`,
  `UnlistedMutators`, `CacheKeys`, `PermissionCache`). Levels, the folds over a user's groups, the resolver with its
  configurable source order and its workspace fallback, the batch resolver that pre-fetches, the
  permission cache and the workspace cache behind it with the flush wiring, and the store methods
  the wiring leaves out.
- **Permission rows and live resources** (`PermissionTables`, `GatewayLifecycle`,
  `ModelLifecycle`). The hooks that grant, rename and wipe rows while MLflow changes its registry.
- **Sessions** (`Sessions`). Login, callback, silent refresh, expiry and logout of one browser;
  sections 6 and 10.12 of RFC 6749.
- **Lazy store** (`LazyStore`). Double-checked locking as atomic steps of any number of threads.
- **Accounting and deletion** (`Ownership`, `Users`, `GroupSync`, `Quota`, `Trash`).

Code that works by changing state is modelled by classes and methods with loops, each proved equal
to a step function on values; the claims over runs are lemmas about those functions. `Common` and
`Lists` hold shared wrappers and sequence lemmas.

## Where the code does not do what it is for

Each has a lemma or method at a concrete input and the exact condition under which the property
does hold.

- The batch resolver takes the last listed group row where `docs/permissions.md` and the single
  resolver take the highest level (`BatchDisagrees`; `BatchAgreesIff`).
- The cache key leaves out the scorer name and the workspace and joins its parts with a colon, so
  scorers of one experiment, the workspaces of a user, and some resources of users with a colon in
  their name share an entry (`ScorersShareEntry`, `WorkspacesShareEntry`, `KeyCollides`;
  `SharedKeyIsSafeIff`, `CoherentIffSafe`).
- A listed membership change flushes the permission cache but not the workspace cache it reads
  through, so the lost level is stored again (`LeavingGroupLeavesStaleEntry`; `AlwaysCoherentIff`).
- `wipe_experiment_permissions`, `delete_user`, `rename_user` and all methods on workspace rows and
  workspace regexes change resolutions but are not on the flush list, although
  `docs/architecture.md` says every change through the store invalidates the cache and the comment
  above the list says that user management does not matter and that workspace permissions are
  handled by their own cache (`WipeLeavesStaleEntry`, `RecreatedUserInheritsEntry`,
  `DeletedUserKeepsWorkspace`, `RevocationLeavesStaleEntry`; `ChangesIffTouched`,
  `CoherentAfterSilentIff`, `SpacesExactAfterSilentIff`, and `RunCleanIsExact` for whole runs).
- Renaming a registered model without a user row leaves its group rows under the old name
  (`StrandedGroupRow`; `RenameMovesAllIff`, `InvIffCarried`). With a user row but no group row
  everything moves and the response is still an error.
- All searches can return a token that leads to an empty page (`TokenToNothing`; `EmptyPageIff`,
  `LoggedEmptyPageIff`). Only the offset searches can return one at the list's very end
  (`EmptyTailIff`, `LoggedToken`).
- A gateway update or delete whose old name could not be resolved strands the rows
  (`DeleteStrandsRow`, `UpdateStrandsRow`; `InvIffTracked`).
- A reconciliation does not set the blocked flag on a row it creates itself, and fails before
  looking at the flag when the limit is zero (`NewRowKeepsFlagUnset`, `ZeroLimitKeepsFlagUnset`;
  `FlagIsRightIff`).
- Nothing keeps an experiment at one manager: the permission API grants MANAGE to a second user, and
  a transfer then replaces only one of them (`SecondManagerStays`; `InvIffLeavesManager`,
  `OneManagerIff`).
- The age bound of the trash cleanup applies to runs named or found as runs; trashed runs of a
  target experiment go with it whatever their age (`YoungRunIsDeleted`; `AgeBoundHoldsIff`).

Two comments disagree with their code and the model follows the code: the documentation of the
workspace fold says the lowest number wins and that of the workspace regex match says the most
permissive level wins, while both keep the larger priority, so NO_PERMISSIONS wins (`DenialDecides`,
`MatchWorkspaceRegex`).

## Model

| member | source | states |
|---|---|---|
| `SearchFilter.RequestScope.CachedCanRead` | mlflow_oidc_auth/hooks/after_request.py:76-131 | the memoised check answers as the un-memoised one, whatever was asked before and for whichever of the five kinds |
| `SearchFilter.RemoveUnreadable` | mlflow_oidc_auth/hooks/after_request.py:197-200 | in-place removal over a snapshot never misses its element and leaves the plain filter by readability, also with repeated entries |
| `SearchFilter.LookUpWorkspaces` | mlflow_oidc_auth/hooks/after_request.py:374-382 | the map holds the looked-up workspace of every listed entry |
| `SearchFilter.RemoveByMap` | mlflow_oidc_auth/hooks/after_request.py:383-385 | removal by the map leaves the plain filter by workspace access |
| `SearchFilter.RemoveOutsideWorkspace` | mlflow_oidc_auth/hooks/after_request.py:202-213 | the second pass leaves the plain filter by workspace access, and everything when workspaces are off |
| `SearchFilter.RemoveOutsideWorkspaceInterleaved` | mlflow_oidc_auth/hooks/after_request.py:315-326 | the single-loop form of the second pass leaves the same filter |
| `SearchFilter.FilterPage` | mlflow_oidc_auth/hooks/after_request.py:197-213 | both passes together leave the filter by the un-memoised conjunction |
| `SearchFilter.FilterVersionsPage` | mlflow_oidc_auth/hooks/after_request.py:310-326 | the same for model versions |
| `Lists.RemoveFlagged` | mlflow_oidc_auth/hooks/after_request.py:198-200 | a flagged element of the snapshot still stands right behind the part already decided |
| `Lists.FilterTwice` | mlflow_oidc_auth/hooks/after_request.py:197-213 | filtering twice keeps what the conjunction keeps |
| `SearchFilter.PassesIff` | mlflow_oidc_auth/hooks/after_request.py:166-184 | the checks in the user's terms: readable, and with workspaces on and a workspace named, one of the four levels that permit reading there |
| `SearchPages.KeepRefetched` | mlflow_oidc_auth/hooks/after_request.py:232-235 | the comprehension over a refetched window is the plain filter by readability and carried workspace |
| `SearchPages.AppendReadable` | mlflow_oidc_auth/hooks/after_request.py:343-345 | the append loop extends the response by that same filter |
| `SearchPages.FilterSearch` | mlflow_oidc_auth/hooks/after_request.py:187-241 | the refill loop ends, with unread entries plus token presence as measure, in the page that a scan one entry at a time produces; an administrator sees the original page |
| `SearchPages.FilterSearchVersions` | mlflow_oidc_auth/hooks/after_request.py:299-351 | the same for the model-version search |
| `SearchPages.PageToken` | mlflow_oidc_auth/hooks/after_request.py:215-239 | a page has at most max_results entries; one that carries a token has exactly max_results, and the token lies beyond the request's offset and within the list |
| `SearchPages.PageSplits` | mlflow_oidc_auth/hooks/after_request.py:272-294 | the token's offset is the number of entries consumed: the page is the filter of the entries before it, and what the page leaves is the filter of the entries after it |
| `SearchPages.PagePastEnd` | mlflow_oidc_auth/hooks/after_request.py:228-230 | a request at or past the end gets an empty last page |
| `SearchPages.SessionJudgesOnce` | mlflow_oidc_auth/hooks/after_request.py:187-296 | a client that follows the tokens has every entry judged exactly once and in order, for every list, page size and readability predicate, with no assumption on workspaces |
| `SearchPages.SessionExact` | mlflow_oidc_auth/hooks/after_request.py:187-296 | where looked-up and carried workspaces agree, the session delivers exactly the readable and accessible entries, none lost or repeated |
| `SearchPages.SessionDelivers` | mlflow_oidc_auth/hooks/after_request.py:187-296 | a session delivers, in order and once each, the entries at exactly the positions the user may read and whose named workspace, with workspaces on, gives the user READ, USE, EDIT or MANAGE |
| `SearchPages.DeniedNeverShown` | mlflow_oidc_auth/hooks/after_request.py:166-184 | an entry of a workspace in which the user holds nothing or NO_PERMISSIONS is never shown |
| `SearchPages.EmptyTailIff` | mlflow_oidc_auth/hooks/after_request.py:237-239 | exactly when the offset search hands out a token that stands at the list's end |
| `SearchPages.EmptyPageIff` | mlflow_oidc_auth/hooks/after_request.py:215-239 | the offset search hands out a token that leads to an empty page if and only if the first window was not the last and what passes of the rest fills this page and no more |
| `SearchPages.FollowTokens` | mlflow_oidc_auth/hooks/after_request.py:244-296 | a client loop over the real handler collects exactly that filter |
| `LoggedModels.CheckModel` | mlflow_oidc_auth/hooks/after_request.py:417-430 | the two checks of the inner loop, with the workspace map filled on the way, are the conjunction |
| `LoggedModels.ScanBatch` | mlflow_oidc_auth/hooks/after_request.py:412-437 | one batch with break and for-else continues the scan: the returned token stands where the scan goes on |
| `LoggedModels.FilterSearchLogged` | mlflow_oidc_auth/hooks/after_request.py:354-440 | the response is the scanned page, token included |
| `LoggedModels.LoggedToken` | mlflow_oidc_auth/hooks/after_request.py:433-439 | the returned token is empty if and only if the list has been consumed; otherwise it points at the first unread entry, behind a full page |
| `LoggedModels.LoggedSessionExact` | mlflow_oidc_auth/hooks/after_request.py:408-440 | following the tokens delivers exactly the entries that pass |
| `LoggedModels.LoggedSessionDelivers` | mlflow_oidc_auth/hooks/after_request.py:354-440 | the same for the logged-model search, by the workspace looked up for the experiment |
| `LoggedModels.LoggedEmptyPageIff` | mlflow_oidc_auth/hooks/after_request.py:433-439 | its token leads to an empty page if and only if what passes of the rest fills this page and no more and the list ends in an entry that does not pass |
| `LoggedModels.TokenToNothing` | mlflow_oidc_auth/hooks/after_request.py:215-239 | a readable entry before an unreadable one, one a page: both searches hand out a token and nothing follows |
| `LoggedModels.FollowLoggedTokens` | mlflow_oidc_auth/hooks/after_request.py:408-440 | the same for a client loop over the real handler |
| `Permissions.Parse` | mlflow_oidc_auth/permissions.py:68-86 | names and levels correspond one to one; any other name is rejected |
| `Permissions.KnownNames` | mlflow_oidc_auth/permissions.py:68-86 | the five names, spelled out; case matters |
| `Permissions.DecisiveIsGreatest` | mlflow_oidc_auth/permissions.py:89-102 | a level decides for a set of grants exactly when no other exceeds its priority, with NO_PERMISSIONS above all |
| `GroupFold.GroupPermissionForUserResource` | mlflow_oidc_auth/repository/_base.py:332-359 | the fold returns the decisive level among the rows of the user's groups |
| `GroupFold.GroupPermissionForUserScorer` | mlflow_oidc_auth/repository/scorer_permission_group.py:75-98 | the two-part-key fold returns the same level on the corresponding table |
| `GroupFold.HighestForUser` | mlflow_oidc_auth/repository/workspace_group_permission.py:199-225 | the join-based fold returns the same level; the code, not the docstring, is followed on which number wins |
| `GroupFold.NameLookupEqualsJoin` | mlflow_oidc_auth/repository/_base.py:226-256 | looking rows up group name by group name sees exactly what the join of rows and links sees |
| `GroupFold.OrderIrrelevant` | mlflow_oidc_auth/repository/registered_model_permission_group.py:77-105 | no reordering of the rows changes the inherited level |
| `GroupFold.DenialDecides` | mlflow_oidc_auth/repository/_base.py:335-346 | NO_PERMISSIONS from any one group forces NO_PERMISSIONS |
| `GroupFold.MatchWorkspaceRegex` | mlflow_oidc_auth/utils/workspace_cache.py:92-123 | the early exit is sound on rows sorted by priority: the answer is the decisive level of the first tier that matches, whatever the order within a tier |
| `Resolution.FirstAnswerWins` | mlflow_oidc_auth/utils/permissions.py:469-515 | the answer comes from the first source in the configured order that has one, the default only when none has |
| `Answers.ResolveExplained` | mlflow_oidc_auth/utils/permissions.py:260-293 | a whole resolution: the first source that answers decides; where none does, the default, or in a workspace the first source that answers for the workspace, and a denial where none does either |
| `Answers.UserAnswerIff` | mlflow_oidc_auth/utils/permissions.py:124-184 | the user source answers with the user's own row: a prompt's in the model table, a scorer's under experiment and scorer name |
| `Answers.GroupAnswerIff` | mlflow_oidc_auth/utils/permissions.py:124-184 | the group source answers with a row of one of the user's groups that no other such row outranks |
| `Answers.FirstMatchIff` | mlflow_oidc_auth/utils/permissions.py:93-101 | the first row that matches decides, and there is an answer exactly when some row does |
| `Answers.UserRegexAnswer` | mlflow_oidc_auth/utils/permissions.py:109-116 | held against the experiment's name, the scorer's name or the resource, the user-regex source answers exactly when a row of the user matches, with the top one |
| `Answers.GroupRegexAnswer` | mlflow_oidc_auth/utils/permissions.py:114-152 | the group-regex source likewise, over the rows of the groups the user is linked to |
| `Answers.ResolvedByRegex` | mlflow_oidc_auth/utils/permissions.py:93-116 | a resource resolved by a regex has the level of a matching row of the user, or of one of their groups, that no matching row of lower priority number outranks |
| `Answers.TierLevelIff` | mlflow_oidc_auth/utils/workspace_cache.py:92-123 | workspace regexes give the strongest level, denial above all, among the matching rows of top priority |
| `Resolution.LookUpWorkspacePermission` | mlflow_oidc_auth/utils/workspace_cache.py:234-293 | the loop over the configured sources, with the two workspace folds inside, finds the level the resolver's own walk finds over the workspace tables |
| `Resolution.DictKeepsLast` | mlflow_oidc_auth/utils/batch_permissions.py:86-100 | the pre-fetched dict keeps the last listed row of a resource |
| `Resolution.SameWalk` | mlflow_oidc_auth/utils/batch_permissions.py:126-160 | batch and single resolution stop at the same source and agree on every source but the group one |
| `Resolution.ResolveIgnoresOrder` | mlflow_oidc_auth/utils/permissions.py:260-293 | single resolution does not depend on the order of group rows |
| `Resolution.BatchUnderOrder` | mlflow_oidc_auth/utils/batch_permissions.py:254-276 | what the batch resolver answers for a given row order |
| `Answers.BatchFailsIff` | mlflow_oidc_auth/utils/batch_permissions.py:66-100 | the batch resolver fails for an unknown user, and only then |
| `Resolution.BatchAgreesIff` | mlflow_oidc_auth/utils/batch_permissions.py:126-276 | the batch resolver agrees with the single one under every row order if and only if another source answers first or the user's groups hold one level on the resource |
| `Resolution.BatchDisagrees` | mlflow_oidc_auth/utils/batch_permissions.py:98-100 | concrete tables on which the batch answer is READ and the resolver's MANAGE |
| `PermissionCache.PermissionStore.GetWorkspacePermissionCached` | mlflow_oidc_auth/utils/workspace_cache.py:43-68 | a hit returns the entry, a miss looks the level up and stores it only when there is one |
| `PermissionCache.PermissionStore.ResolvePermission` | mlflow_oidc_auth/utils/permissions.py:260-293 | a hit returns the entry; a miss resolves, through the workspace cache where no source answers, and stores the result |
| `PermissionCache.PermissionStore.RunListed` | mlflow_oidc_auth/sqlalchemy_store.py:1254-1271 | a listed mutator leaves its last commit behind and empties the permission cache, or keeps it when it raises |
| `PermissionCache.OpTakesEffect` | mlflow_oidc_auth/sqlalchemy_store.py:1254-1271 | what each operation does to the tables and the two caches; a listed mutator that raises keeps the cache, and the tables too if it committed nothing |
| `PermissionCache.LookupTakesEffect` | mlflow_oidc_auth/utils/permissions.py:260-293 | a lookup answers from its entry; without one it gives the resolution, or the level of the workspace entry where no source answers, and stores it |
| `CacheKeys.KeyDetermines` | mlflow_oidc_auth/utils/permissions.py:56-58 | for user names without a colon the key determines type, resource and user |
| `CacheKeys.KeysAre` | mlflow_oidc_auth/utils/permissions.py:56-58 | the keys of the seven resource types, spelled out |
| `CacheKeys.SpaceKeyDetermines` | mlflow_oidc_auth/utils/workspace_cache.py:28-30 | for user names without a colon the key of the workspace cache determines user and workspace |
| `CacheKeys.SharedKeyIsSafeIff` | mlflow_oidc_auth/utils/permissions.py:260-293 | two queries with one key resolve alike on all tables, workspace tables included, if and only if they name the same resource, user and (for scorers) scorer and fall back on the same workspace |
| `PermissionCache.CoherentIffSafe` | mlflow_oidc_auth/sqlalchemy_store.py:1115-1127 | where no query falls back on a workspace, every cached answer is exact in every run of listed mutators if and only if every two queries that share a key meet that condition |
| `PermissionCache.LeavingGroupLeavesStaleEntry` | mlflow_oidc_auth/sqlalchemy_store.py:1254-1271 | for every query with a workspace: leaving a group flushes the permission cache, and the next lookup stores the lost level again from the workspace cache |
| `PermissionCache.AlwaysCoherentIff` | mlflow_oidc_auth/sqlalchemy_store.py:1115-1127 | so, with groups among the sources, cached answers are exact in every run of listed mutators if and only if no query falls back on a workspace and all that share a key meet the condition |
| `PermissionCache.KeyCollides` | mlflow_oidc_auth/utils/permissions.py:56-58 | with a colon in a user name two resources share a key, and one user is answered with another user's MANAGE |
| `PermissionCache.ScorersShareEntry` | mlflow_oidc_auth/utils/permissions.py:328-334 | MANAGE on one scorer is answered for another scorer of the experiment, which resolves to the fallback |
| `PermissionCache.WorkspacesShareEntry` | mlflow_oidc_auth/utils/permissions.py:279-291 | READ held in one workspace is answered for a query in another, which resolves to a denial |
| `PermissionCache.ExactWithoutScorers` | mlflow_oidc_auth/utils/permissions.py:260-293 | hence every cached answer is exact for colon-free users, no scorer queries and no workspaces |
| `UnlistedMutators.WipeChangesIff` | mlflow_oidc_auth/sqlalchemy_store.py:402-409 | wiping an experiment changes a resolution if and only if it is of that experiment and a user or group row answered it, and no workspace permission |
| `UnlistedMutators.DeleteChangesIff` | mlflow_oidc_auth/repository/user.py:198-265 | deleting a user changes a resolution if and only if it is that user's and a source or the workspace answered it, and a workspace permission if and only if that user had it |
| `UnlistedMutators.RenameChangesIff` | mlflow_oidc_auth/repository/user.py:172-183 | renaming a user changes a resolution if and only if it is of the old or the new name, the names differ and a source or the workspace answered the old one; likewise for workspace permissions |
| `UnlistedMutators.CreateChangesNothing` | mlflow_oidc_auth/sqlalchemy_store.py:1124-1125 | creating a user changes no resolution and no workspace permission |
| `UnlistedMutators.UserRowAfter` | mlflow_oidc_auth/sqlalchemy_store.py:924-946 | what the methods on a user's workspace row leave in the tables |
| `UnlistedMutators.GroupRowAfter` | mlflow_oidc_auth/sqlalchemy_store.py:970-992 | what the methods on a group's workspace row leave in the tables |
| `UnlistedMutators.SpaceWipeAfter` | mlflow_oidc_auth/sqlalchemy_store.py:998-1012 | a wiped workspace loses all user and group rows and nothing else goes |
| `UnlistedMutators.RegexRowsAfter` | mlflow_oidc_auth/sqlalchemy_store.py:1016-1073 | the methods on workspace regexes replace the rows of one user, or the group rows, and nothing else |
| `UnlistedMutators.DirectoryAfter` | mlflow_oidc_auth/sqlalchemy_store.py:318-373 | the methods on users and groups: whoever is there afterwards, under which id |
| `UnlistedMutators.SpaceAnswerAfter` | mlflow_oidc_auth/sqlalchemy_store.py:924-1073 | what each source says about a user in a workspace after a workspace row, a wipe or regex rows, computed from the tables before |
| `UnlistedMutators.SpaceChangesIff` | mlflow_oidc_auth/sqlalchemy_store.py:924-1073 | every method changes exactly the workspace permissions that a walk over those answers names before the call |
| `UnlistedMutators.ChangesIffTouched` | mlflow_oidc_auth/sqlalchemy_store.py:1115-1127 | each method that writes users, groups or permission rows without a flush, workspace rows and regexes included, changes exactly the resolutions that a condition on the tables before the call names |
| `PermissionCache.CoherentAfterSilentIff` | mlflow_oidc_auth/sqlalchemy_store.py:1115-1127 | after such a method the permission cache is exact if and only if none of the cached queries was touched |
| `PermissionCache.SpacesExactAfterSilentIff` | mlflow_oidc_auth/utils/workspace_cache.py:71-89 | and the workspace cache if and only if none of the cached users in workspaces was |
| `PermissionCache.RunCleanIsExact` | mlflow_oidc_auth/sqlalchemy_store.py:1129-1271 | over every run of both caches, with such methods and with mutators that raise half-way anywhere in it, an entry is exact unless something touched it since the last flush or expiry or it was filled from a stale workspace entry |
| `PermissionCache.ExactSinceFlush` | mlflow_oidc_auth/sqlalchemy_store.py:1254-1271 | whatever came before, a query is answered exactly once both caches have been flushed, the permission cache last, and nothing since the first flush was about it; without a workspace the second flush alone will do |
| `PermissionCache.WipeLeavesStaleEntry` | mlflow_oidc_auth/sqlalchemy_store.py:402-409 | a concrete run after which the entry of a wiped experiment is stale |
| `PermissionCache.RecreatedUserInheritsEntry` | mlflow_oidc_auth/sqlalchemy_store.py:372-373 | a user deleted and created anew is answered with the old user's MANAGE |
| `PermissionCache.DeletedUserKeepsWorkspace` | mlflow_oidc_auth/sqlalchemy_store.py:372-373 | a deleted user who held only a workspace permission is still answered with it |
| `PermissionCache.RevocationLeavesStaleEntry` | mlflow_oidc_auth/routers/workspace_permissions.py:206-220 | after the route that revokes a workspace permission and drops its workspace entry, the permission cache still answers READ |
| `PermissionTables.SubjectTable.Grant` | mlflow_oidc_auth/repository/_base.py:79-105 | a grant adds its row exactly when level and subject are valid and no such row exists, and changes nothing otherwise |
| `PermissionTables.SubjectTable.Update` | mlflow_oidc_auth/repository/_base.py:139-152 | an update changes that one row or nothing |
| `PermissionTables.SubjectTable.Revoke` | mlflow_oidc_auth/repository/_base.py:154-163 | a revocation removes that one row, and fails exactly when it is not there |
| `PermissionTables.SubjectTable.Rename` | mlflow_oidc_auth/repository/_base.py:165-171 | renaming row by row moves all rows, or none when a subject has rows on both names |
| `PermissionTables.SubjectTable.RenameExisting` | mlflow_oidc_auth/repository/registered_model_permission.py:36-46 | the registered-model rename also fails when there is nothing to rename |
| `PermissionTables.SubjectTable.Wipe` | mlflow_oidc_auth/repository/_base.py:173-179 | a wipe removes exactly the resource's rows |
| `PermissionTables.RenamedGrants` | mlflow_oidc_auth/repository/_base.py:415-421 | a rename hands the (subject, level) pairs over whole and touches no third resource |
| `PermissionTables.WipedGrants` | mlflow_oidc_auth/repository/_base.py:423-429 | a wipe leaves the pairs of every other resource alone |
| `GatewayLifecycle.Server.CreateEndpoint` | mlflow_oidc_auth/hooks/after_request.py:479-485 | creation grants the creator MANAGE; whether a row was there already is reported |
| `GatewayLifecycle.Server.UpdateEndpoint` | mlflow_oidc_auth/hooks/after_request.py:488-509 | the stashed old name and the name in the response drive a two-table rename |
| `GatewayLifecycle.Server.DeleteEndpoint` | mlflow_oidc_auth/hooks/after_request.py:584-592 | the stashed name drives a two-table wipe |
| `GatewayLifecycle.RequestTakesEffect` | mlflow_oidc_auth/hooks/after_request.py:479-592 | what each request does to the registry and the rows, and exactly when it is refused and does nothing |
| `GatewayLifecycle.NoClash` | mlflow_oidc_auth/sqlalchemy_store.py:782-785 | no grant and no rename ever meets an existing row |
| `GatewayLifecycle.StepKeepsInv` | mlflow_oidc_auth/hooks/before_request.py:600-635 | every request, accepted or not, keeps all rows on live endpoints |
| `GatewayLifecycle.InvIffTracked` | mlflow_oidc_auth/hooks/before_request.py:622-635 | and exactly when the old name was resolved or there was nothing to carry over |
| `GatewayLifecycle.RunKeepsInv` | mlflow_oidc_auth/hooks/before_request.py:600-635 | over every run of requests rows name only live endpoints and no step clashes |
| `GatewayLifecycle.StepKeepsGrants` | mlflow_oidc_auth/sqlalchemy_store.py:782-790 | a request leaves the grants of every endpoint as they were, also of the one it renames, unless it deletes the endpoint or names it through the permission API |
| `GatewayLifecycle.RunKeepsGrants` | mlflow_oidc_auth/sqlalchemy_store.py:782-790 | over whole runs of all kinds of requests an endpoint that is neither deleted nor named through the permission API keeps exactly its (subject, level) pairs across all renames |
| `GatewayLifecycle.DeleteStrandsRow` | mlflow_oidc_auth/hooks/before_request.py:622-635 | a concrete deletion whose name was not resolved, after which the next endpoint of that name carries the old row |
| `GatewayLifecycle.UpdateStrandsRow` | mlflow_oidc_auth/hooks/before_request.py:622-635 | a concrete update whose name was not resolved, after which the endpoint has lost its row |
| `GatewayLifecycle.CreateStartsClean` | mlflow_oidc_auth/hooks/after_request.py:479-485 | a new endpoint starts with its creator's row and nothing else, even under a name used before |
| `ModelLifecycle.Registry.CreateModel` | mlflow_oidc_auth/hooks/after_request.py:142-147 | creation grants the creator MANAGE; whether a row was there already is reported |
| `ModelLifecycle.Registry.RenameModel` | mlflow_oidc_auth/hooks/after_request.py:443-455 | user rows, then group rows; the handler raises exactly when one of the two finds nothing or clashes |
| `ModelLifecycle.Registry.DeleteModel` | mlflow_oidc_auth/hooks/after_request.py:150-164 | deletion wipes both tables |
| `ModelLifecycle.RequestTakesEffect` | mlflow_oidc_auth/hooks/after_request.py:142-164 | what each request does to the registry and the rows, and exactly when it is refused and does nothing |
| `ModelLifecycle.RenameMovesAllIff` | mlflow_oidc_auth/repository/registered_model_permission.py:36-46 | a rename moves every user and group row if and only if the model has a user row or no group row, whether or not the handler raises |
| `ModelLifecycle.InvIffCarried` | mlflow_oidc_auth/repository/registered_model_permission_group.py:46-56 | rows name only live models after a request if and only if a rename was carried through |
| `ModelLifecycle.RunKeepsInv` | mlflow_oidc_auth/hooks/after_request.py:142-164 | over every run of carried requests rows name only live models |
| `ModelLifecycle.RecreatedStartsClean` | mlflow_oidc_auth/hooks/after_request.py:150-164 | a recreated name carries only the new creator's row |
| `ModelLifecycle.StrandedGroupRow` | mlflow_oidc_auth/hooks/after_request.py:454-455 | a concrete run in which a group row is stranded and reappears on a new model |
| `LazyStore.StepKeepsInv` | mlflow_oidc_auth/store.py:36-46 | every atomic step of any thread keeps the locking invariant |
| `LazyStore.OneInstance` | mlflow_oidc_auth/store.py:27-46 | in every interleaving at most one initialisation succeeds, all callers get that instance, and only after `init_db` has finished |
| `LazyStore.InstanceStays` | mlflow_oidc_auth/store.py:34 | the instance never changes once it is there |
| `LazyStore.SomeoneMoves` | mlflow_oidc_auth/store.py:36-46 | whenever a thread is inside a call some thread inside a call can move |
| `LazyStore.CallsEnd` | mlflow_oidc_auth/store.py:36-46 | every own step brings a call nearer to its end |
| `LazyStore.FailureLeavesNothing` | mlflow_oidc_auth/store.py:27-34 | a failed initialisation frees the lock and publishes nothing |
| `LazyStore.SuccessIsReturned` | mlflow_oidc_auth/store.py:27-34 | a finished init_db is published and handed to its caller |
| `LazyStore.FastPath` | mlflow_oidc_auth/store.py:36-38 | once there is an instance a call returns it in three steps and leaves the lock alone |
| `LazyStore.SlowPath` | mlflow_oidc_auth/store.py:38-46 | a call that finds the lock free and no instance makes one, migrates it and returns it |
| `Sessions.Browser.PersistSessionAuth` | mlflow_oidc_auth/routers/auth.py:166-191 | writes the expiry of the response and, when enabled, its refresh token |
| `Sessions.Browser.Refresh` | mlflow_oidc_auth/routers/auth.py:103-137 | succeeds exactly when enabled, a token is stored and the provider answers; every failure leaves the session as it was |
| `Sessions.Browser.AuthenticateSession` | mlflow_oidc_auth/middleware/auth_middleware.py:143-193 | accepts, refreshes or empties the session as the request step says |
| `Sessions.Browser.HandleLogin` | mlflow_oidc_auth/routers/auth.py:262-274 | stores the state and a sanitised return target |
| `Sessions.Browser.HandleCallback` | mlflow_oidc_auth/routers/auth.py:482-509 | checks and consumes the state, then logs in |
| `Sessions.SanitizeNext` | mlflow_oidc_auth/routers/auth.py:194-213 | a target survives exactly when it is a path on this origin without line breaks |
| `Sessions.LoginExplained` | mlflow_oidc_auth/routers/auth.py:262-274 | a login stores its state and, if safe, its return target |
| `Sessions.CallbackExplained` | mlflow_oidc_auth/routers/auth.py:482-509 | a callback passes exactly when it brings back the stored state, and then logs in whoever the exchange names |
| `Sessions.AcceptedIff` | mlflow_oidc_auth/middleware/auth_middleware.py:180-193 | a request is accepted exactly when the session names a user and is unexpired with the non-negative leeway taken off, or is refreshed in that step |
| `Sessions.RequestExplained` | mlflow_oidc_auth/middleware/auth_middleware.py:143-193 | a session request in full, with the configured leeway, negative counting as none: a live session is accepted unchanged whatever the provider does, any other is renewed or emptied |
| `Sessions.OldTokenKept` | mlflow_oidc_auth/routers/auth.py:182-189 | a refresh response without a refresh token keeps the old one, so the next refresh works |
| `Sessions.TokensStored` | mlflow_oidc_auth/routers/auth.py:140-191 | what a token response leaves in the session: a rotated refresh token, if enabled, and the first positive expiry it names, in whole seconds |
| `Sessions.LatestRefreshToken` | mlflow_oidc_auth/routers/auth.py:182-189 | with refresh enabled the session holds the refresh token that was handed out last, until a logout or a denial |
| `Sessions.NoRefreshToken` | mlflow_oidc_auth/routers/auth.py:190-191 | with refresh disabled no history stores a refresh token |
| `Sessions.DeniedUntilCallback` | mlflow_oidc_auth/middleware/auth_middleware.py:157-163 | after a denial all later requests are denied until a callback logs someone in |
| `Sessions.AcceptedUserLoggedIn` | mlflow_oidc_auth/routers/auth.py:407-410 | every accepted request acts for the user of the latest successful callback, with no logout or denial since |
| `Sessions.NeverOutlivesToken` | mlflow_oidc_auth/middleware/auth_middleware.py:179-193 | a request accepted without refresh comes before the expiry of the tokens written last, and before that less the configured leeway |
| `Sessions.AcceptedWithinTokenLife` | mlflow_oidc_auth/routers/auth.py:140-163 | a request accepted without refresh comes, leeway taken off, before the exact moment the tokens written last run out, whichever field states it and however it is rounded |
| `Sessions.LogoutLocksOut` | mlflow_oidc_auth/routers/auth.py:331-335 | after a logout all requests are denied until a callback logs someone in |
| `Sessions.OneShot` | mlflow_oidc_auth/routers/auth.py:492-503 | callbacks that pass the state check, plus a pending state, never outnumber logins |
| `Sessions.PassUsesItsOwnLogin` | mlflow_oidc_auth/routers/auth.py:265-267 | each passing callback carries the state of a login made after the callback that passed before it |
| `Sessions.LoginThenCallback` | mlflow_oidc_auth/routers/auth.py:493-503 | the state of a login passes once and not again |
| `Sessions.MismatchKeepsPending` | mlflow_oidc_auth/routers/auth.py:495-500 | a callback that does not match leaves the pending state and all else alone |
| `Sessions.RedirectSafe` | mlflow_oidc_auth/routers/auth.py:272-274 | in every history the stored return target is a safe path |
| `Ownership.TransferOwnership` | mlflow_oidc_auth/routers/quota.py:197-225 | who may transfer and what is refused, in order; refusals change nothing, otherwise the old owner is downgraded and the new one upgraded or created |
| `Ownership.OnlyManagersTransfer` | mlflow_oidc_auth/routers/quota.py:198-210 | read off the rows: whoever holds no MANAGE row and is no administrator is refused, and where one user alone holds it, everyone else is |
| `Ownership.TransferSwaps` | mlflow_oidc_auth/routers/quota.py:212-223 | the transfer swaps exactly one manager, leaves that one EDIT and touches no other row |
| `Ownership.OneManagerIff` | mlflow_oidc_auth/routers/quota.py:212-223 | exactly one manager remains if and only if nobody but the two involved was one |
| `Ownership.SetKeepsOneManagerIff` | mlflow_oidc_auth/repository/_base.py:79-171 | a grant keeps exactly one manager if and only if it gives MANAGE to none but that one and takes it from nobody; a revocation if and only if it is not the manager's |
| `Ownership.InvIffLeavesManager` | mlflow_oidc_auth/hooks/after_request.py:134-139 | exactly which requests, permission API included, leave every experiment with one manager |
| `Ownership.RunKeepsOneManager` | mlflow_oidc_auth/hooks/after_request.py:134-139 | over every run of creations, transfers and such grants and revocations each experiment has exactly one manager |
| `Ownership.ChangedByManager` | mlflow_oidc_auth/routers/quota.py:198-201 | at any point of a run, a transfer that changes anything was requested by an administrator or a manager of that moment |
| `Ownership.ManagerCanTransfer` | mlflow_oidc_auth/routers/quota.py:212-223 | the one manager can hand a live experiment over to any known user |
| `Ownership.RequestTakesEffect` | mlflow_oidc_auth/hooks/after_request.py:134-139 | what each creation, grant and revocation does to the rows |
| `Ownership.SecondManagerStays` | mlflow_oidc_auth/routers/quota.py:212-223 | a second MANAGE grant is carried out, and a transfer then leaves two managers |
| `Users.UserStore.CreateUser` | mlflow_oidc_auth/repository/user.py:25-48 | the new user is there afterwards; fails exactly on an empty or taken name |
| `Users.UserStore.RenameUser` | mlflow_oidc_auth/repository/user.py:172-183 | fails exactly on an unknown user, an empty new name or one that is taken, and changes the name only |
| `Users.UserStore.DeleteUser` | mlflow_oidc_auth/repository/user.py:198-265 | the table-by-table cascade is one deletion over all tables |
| `Users.OpTakesEffect` | mlflow_oidc_auth/repository/user.py:25-265 | what each operation does to users and rows, and exactly when it is refused and does nothing |
| `Users.CascadeIsComplete` | mlflow_oidc_auth/repository/user.py:228-262 | no user-keyed table is left out of the cascade |
| `Users.RunKeepsInv` | mlflow_oidc_auth/repository/user.py:198-265 | over every run no row refers to a missing user |
| `Users.DeleteIsExact` | mlflow_oidc_auth/repository/user.py:204-265 | a deletion removes the user's rows from all tables, and no other row or user |
| `Users.NewUserOwnsNothing` | mlflow_oidc_auth/repository/user.py:35-46 | a new user owns no rows, also when an id is given out again |
| `Users.RenameKeepsRows` | mlflow_oidc_auth/repository/user.py:172-183 | a rename keeps every row with the user |
| `GroupSync.GroupStore.CreateGroups` | mlflow_oidc_auth/repository/group.py:31-42 | every listed group exists afterwards, whatever the repetitions |
| `GroupSync.GroupStore.SetGroupsForUser` | mlflow_oidc_auth/repository/group.py:129-145 | succeeds exactly for a known user and known groups, never hits a duplicate link, and rolls back otherwise |
| `GroupSync.GroupStore.AddUserToGroup` | mlflow_oidc_auth/repository/group.py:68-79 | adds that one membership, and fails exactly when something is unknown or the link exists |
| `GroupSync.GroupStore.RemoveUserFromGroup` | mlflow_oidc_auth/repository/group.py:81-92 | removes that one membership, and fails exactly when it is not there |
| `GroupSync.GroupStore.Sync` | mlflow_oidc_auth/routers/auth.py:599-601 | populating and then setting groups cannot fail for a known user; for an unknown one only the groups have been created |
| `GroupSync.SyncedMemberships` | mlflow_oidc_auth/repository/group.py:129-145 | membership is exactly the set of listed names; everyone else's is untouched |
| `GroupSync.SyncIsIdempotent` | mlflow_oidc_auth/routers/auth.py:599-601 | syncing the same list again changes nothing |
| `Quota.Ledger.SetUserQuota` | mlflow_oidc_auth/repository/quota.py:43-62 | creates or changes the limit, not the usage |
| `Quota.Ledger.UpdateEmail` | mlflow_oidc_auth/repository/quota.py:64-84 | creates or changes the email, not the usage |
| `Quota.Ledger.DeleteUserQuota` | mlflow_oidc_auth/repository/quota.py:86-92 | removes the row |
| `Quota.Ledger.UpdateUsedBytes` | mlflow_oidc_auth/repository/quota.py:94-104 | sets the usage of an existing row |
| `Quota.Ledger.IncrementUsedBytes` | mlflow_oidc_auth/repository/quota.py:106-115 | sets the usage of an existing row to the least amount that is not negative and covers the increment, keeps the ledger valid and touches no other row or field |
| `Quota.Ledger.SetHardBlocked` | mlflow_oidc_auth/repository/quota.py:117-126 | changes the flag only |
| `Quota.Ledger.CheckUpload` | mlflow_oidc_auth/hooks/before_request.py:528-545 | refuses exactly non-admin uploads of owners whose usage has reached the row's own limit, or the default where it has none, and charges the announced length otherwise |
| `Quota.Ledger.ReconcileUser` | mlflow_oidc_auth/utils/quota.py:141-196 | sets the measured usage and the flag; fails exactly for an existing row with limit zero |
| `Quota.LedgerExact` | mlflow_oidc_auth/repository/quota.py:43-137 | while a row exists, used bytes are the last reset value plus every content length charged since, and not negative |
| `Quota.StepEffect` | mlflow_oidc_auth/repository/quota.py:43-137 | each event changes the usage as its entry in the books says, and never another user's row |
| `Quota.OvershootIsOneUpload` | mlflow_oidc_auth/utils/quota.py:115-138 | in every history the last entry in a user's books bounds the usage: it equals a reset, and after a charge exceeds the limit of that time by less than that charge |
| `Quota.UsageBound` | mlflow_oidc_auth/utils/quota.py:115-138 | while a limit stands since the last reset, usage is the reset value or below the limit plus the last upload |
| `Quota.FlagIsRightIff` | mlflow_oidc_auth/utils/quota.py:151-196 | exactly when a reconciliation leaves a flag that says whether usage has reached the limit |
| `Quota.NewRowKeepsFlagUnset` | mlflow_oidc_auth/utils/quota.py:151-196 | a concrete reconciliation that makes the row and leaves the flag unset at the limit |
| `Quota.ZeroLimitKeepsFlagUnset` | mlflow_oidc_auth/utils/quota.py:151-196 | the same for a row with limit zero |
| `Trash.FetchIsPagePrefix` | mlflow_oidc_auth/routers/trash.py:319-331 | the recursive listing is the pages before the first one that raises |
| `Trash.FetchIsPrefix` | mlflow_oidc_auth/routers/trash.py:319-331 | and so a prefix of the full list, all of it when nothing raises |
| `Trash.Backend.DeleteRuns` | mlflow_oidc_auth/routers/trash.py:336-372 | every distinct target ends in exactly one of deleted and failed, and only trashed runs that meet the bound are deleted |
| `Trash.Backend.HardDeleteExperiment` | mlflow_oidc_auth/utils/trash_cleanup.py:59-69 | succeeds exactly when the experiment exists and neither it nor one of its trashed runs is refused; removes exactly the trashed runs listed before the first refusal, and on success the experiment |
| `Trash.Backend.DeleteExperiments` | mlflow_oidc_auth/routers/trash.py:374-388 | each listed experiment ends in one of the lists, exactly those that can be destroyed, once each, in the deleted one; exactly those and the runs reached on the way are gone |
| `Trash.Backend.CheckExperiments` | mlflow_oidc_auth/routers/trash.py:284-314 | 404 exactly for an unknown experiment, 400 exactly for one that is active or too young |
| `Trash.Backend.ChooseExperiments` | mlflow_oidc_auth/routers/trash.py:240-331 | every early return, in the request's own words, and the experiments named or listed |
| `Trash.Backend.Cleanup` | mlflow_oidc_auth/routers/trash.py:240-388 | a refusal leaves all runs and experiments intact; otherwise exactly the named (or found) runs and the named (or listed) experiments are tried, exactly the unrefused ones that qualify are deleted, the only other runs gone are those reached in these experiments, and the rest is unchanged |
| `Trash.AgeBoundHoldsIff` | mlflow_oidc_auth/routers/trash.py:336-388 | every hard-deleted run meets the age bound if and only if every trashed run of a target experiment that is listed before its first refusal does |
| `Trash.YoungRunIsDeleted` | mlflow_oidc_auth/utils/trash_cleanup.py:59-69 | a concrete cleanup under a bound that hard-deletes a run younger than it |

## Left out

- MLflow, SQLAlchemy, Authlib, cachetools and Redis internals: tables are maps with unique keys, a session that raises rolls back, and tokens encode offsets faithfully.
- Regex matching: a parameter, as are clocks, random states, assigned ids, the identity provider's answers, measured artifact sizes and refusals of the tracking store.
- Search filtering: readability, workspace lookups and workspace permissions are fixed while a request or a client session lasts.
- SearchPages.SessionExact: assumes that the workspace looked up for an entry is the one it carries, because MLflow supplies both; SearchPages.SessionJudgesOnce makes no such assumption.
- Cache lookups and requests are atomic; a lookup overtaken by a flush on another thread and caches of other replicas are not modelled.
- CacheKeys.SharedKeyIsSafeIff: for configurations that consult users' or groups' own rows; where only regex rows are consulted the condition would depend on the regexes.
- PermissionCache.CoherentIffSafe: for the same configurations.
- PermissionCache.AlwaysCoherentIff: for configurations that consult groups' own rows, for the same reason; listed mutators that raise between two transactions are left to PermissionCache.RunCleanIsExact.
- The registered-model group fold is line for line the base fold and is not repeated; scorers, secrets and model definitions follow the endpoint and model patterns and would only add easy members.
- Threshold notifications, emails and the summing of artifact sizes in reconciliation; run and experiment creation are checked against the quota but never charged.
- Trash.Backend.HardDeleteExperiment: takes the experiment's trashed runs as one complete list in the store's order, where the store's search may return only its first page.
- Parsing of time spans and comma-separated lists, the FastAPI permission routers, validators, configuration providers, entity serialisation, GraphQL, proxy headers, audit, UI and migrations: thin or I/O.
- `list_permissions_for_user_groups` of the regex group base, which reads another id than its siblings.
