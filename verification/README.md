# Verified model of the workspace authorization service

A Dafny model of a relation-tuple authorization service in the style of Zanzibar (userset rewrites,
section 2.3.2 of that paper), with proofs about its evaluator, its store and product operations, its rate limiter
and its model documents. `dafny verify dfyconfig.toml` checks everything.

**The evaluator.** `Model.dfy` holds rewrites, subjects and the fixed inputs of one evaluation. `Evaluator.dfy`
describes a run of the evaluator as a function from scratch state to scratch state; `Engine.dfy` is the imperative
evaluator, proved to perform exactly those runs. `Kleene.dfy` is the independent reference: a fuel-indexed
strong-Kleene value per node. `Soundness.dfy` proves fail-closed soundness, memo exactness and depth-bounded
completeness against it; `SetQueries.dfy` says exactly what a userset query finds; `Conditions.dfy` says what a
condition does to each operation; `Shallow.dfy` says when nothing is cut; `Solutions.dfy` relates the reference to least
fixpoints and to the solutions of the rewrite equations; `Budget.dfy`, `FanOutCut.dfy`, `ExpandCap.dfy` and `Cost.dfy`
treat the read budget and the node cap. `ListObjects.dfy`, `Expand.dfy`, `Members.dfy` and `CheckSet.dfy` are the
operations built on it; `ExpandMeaning.dfy` and `MemberMeaning.dfy` say that their results grant nothing undeserved and
`Completeness.dfy` that they show whatever is settled. `Inheritance.dfy` says what the default model gives.
`SameRun.dfy`, `SameTree.dfy` and `Inert.dfy` say when two evaluations are the same run. `Counterexamples.dfy` shows
that hypotheses are needed.

**The store and the product operations.** `TupleKeys.dfy` and `Store.dfy` hold the keys and the repository steps on
one (project, tenant) shard; `MemoryDriver.dfy` is the in-memory driver in place. `Seats.dfy` and `Workspaces.dfy` hold
the operations, `Grades.dfy` what Check answers about workspaces under the default model and the permission guard.
`Requests.dfy` is the service as a state machine: any requests, on any shards, in any order, with a crash possible
between repository steps. `Policy.dfy` says, in terms of the stored rows, who may make which request and when it is
accepted, `Outcomes.dfy` what an accepted request has achieved and what no request touches. `SeatRuns.dfy`,
`SeatLedger.dfy`, `MembershipSteps.dfy`, `MembershipRuns.dfy`, `Provenance.dfy`, `Shapes.dfy`, `Effects.dfy`,
`Isolation.dfy`, `Sequence.dfy` and `Convergence.dfy` prove what holds over all its runs: seats and seat tuples agree,
and both are what the accepted requests left; a membership row and its role tuple agree except for the (workspace,
user) pairs an erase separated, until a request writes that row again; every role and every invitation goes back to
someone entitled to give it; stored subjects are well formed; a request changes what Check answers for exactly the
pairs it moves; the write sequence tells when the tuple table has changed, but for erases; first calls for a personal
workspace converge, however their steps interleave. `Service.dfy` is the service in place, each method proved to
perform the complete call of that machine, guarded by the imperative engine, and to keep what the run theorems say of
every shard.

**The rest.** `RateLimiter.dfy` is the token bucket with pruning, over runs with a clock that never goes back;
`RateExactness.dfy` says exactly which requests it grants. `ModelDoc.dfy` is the model document parser and printer,
`DocMeaning.dfy` what a document says.

Four places where code and comments disagree; the model follows the code. A tuple on a computed-only relation can be
read, when a rule walks that relation as a tupleset (pkg/authz/model.go:114-121; `Inert.WalkedTuplesetDecides`, with
the exact condition in `Inert.CheckIgnoresIff` for Check and `Inert.ComputedOnlyIsInertIff` for Expand). A recursion
that runs into the depth limit does not fail closed on every path: under an exclude side, Expand and member resolution
then grant too much (pkg/authz/engine.go:32-34 and pkg/authz/checkset.go:97-99;
`Counterexamples.CutExclusionIsNotExpanded`, `Counterexamples.CutExclusionIsNotSubtracted`, with what is still sound
in `ExpandMeaning.GuardedExpandIsSound` and `MemberMeaning.GuardedResolutionIsSound` and the exact condition on one
subtraction in `MemberMeaning.CutSubtractionIsSafeIff`); Check itself does (`Soundness.CheckFailsClosed`). A crash
between the two creation steps does leave a workspace without an owner, for good
(internal/service/workspaces.go:89-91; `MembershipRuns.CutPersonalStaysOrphaned`, with the exact condition in
`MembershipRuns.InvAlways`). The project-wide erase does not advance the write sequence, which is said to move with
any tuple mutation (internal/repo/memory/memory.go:169-172 and 231-259; `Sequence.EraseSkipsSequence`, with the exact
condition in `Sequence.UnsequencedIffSilent` and, over runs, in `Sequence.SequenceTellsIff`).

## Model

| member | source | states |
|---|---|---|
| `Soundness.CheckSound` | pkg/authz/engine.go:236-334 | From any state whose memo is exact: the memo stays exact and the cycle counter never falls; a positive-polarity yes, a negated-polarity no, and any answer given without a cut is the node's settled strong-Kleene value |
| `Soundness.CheckFailsClosed` | pkg/authz/engine.go:236-278 | On every graph, cyclic or over-deep, with nested exclusion: a granted request is Kleene-true, a request without cuts is answered exactly, and every memo entry left is exact |
| `Soundness.CheckComplete` | pkg/authz/engine.go:241-408 | A node settled within the levels still available, none on the path being settled, gets exactly its value at either polarity, whatever cycles lie elsewhere and whatever exact entries the memo holds, unless the budget errors |
| `Soundness.TopCheckComplete` | pkg/authz/engine.go:241-278 | A request settled by maxDepth + 1 levels is answered with that value unless its budget runs out |
| `SetQueries.SetQueryIff` | pkg/authz/engine.go:295-379 | Unless the budget runs out, a userset query is answered yes if and only if the queried set is found within maxDepth + 1 levels: named by a met grant, or covered by a public one, through unions, computed relations, met nested usersets and met pointers |
| `Conditions.CheckSeesLiveGrants` | pkg/authz/engine.go:342-408 | Every request, by user or userset, is run for run the request it would be in a store holding only the grants whose condition is absent, unnamed, or registered and met, with the conditions taken off |
| `Conditions.LiveSettled` | pkg/authz/engine.go:342-408 | The reference sees conditions the same way: at every depth it has the value it has in that store |
| `Shallow.EndedRequest` | pkg/authz/engine.go:241-278 | Where every walk from the node ends within the depth limit, a request meets no cut, is exact within maxDepth + 1 levels, and reads each leaf of the pairs it memoized at most once |
| `SetQueries.StructuralMatchIsInclusion` | pkg/authz/engine.go:295-379 | A userset query answered yes means every user Kleene-true in the queried set is Kleene-true in the target, for every model and request context |
| `Kleene.KMonotone` | pkg/authz/engine.go:241-278 | A value settled at some depth is the value at every greater depth |
| `Kleene.IsConsistent` | pkg/authz/engine.go:241-278 | No node is settled both ways |
| `VisitKeys.VisitKeyUniqueIff` | pkg/authz/engine.go:234-234 | A node's cycle key belongs to it alone exactly when its own separators are the only way to split the key |
| `VisitKeys.VisitKeyInjective` | pkg/authz/engine.go:234-234 | Without colons in namespaces and hashes in relations the plain join is injective |
| `VisitKeys.MemoKeyInjective` | pkg/authz/engine.go:260-260 | Memo keys determine node and polarity for such names |
| `VisitKeys.VisitKeyCollision` | pkg/authz/engine.go:234-234 | With such characters two distinct nodes share a key |
| `Counterexamples.CollidingKeysGrantTooMuch` | pkg/authz/engine.go:260-277 | A concrete store with colliding keys on which Check grants what the reference settles to false: the name hypothesis of the soundness theorems is needed |
| `Budget.TopCheckCut` | pkg/authz/engine.go:141-148 | A budgeted request errs exactly when the unbudgeted one reads more than the budget, charging one read past it; otherwise it is the same run, memo and counters included |
| `Budget.CheckCut` | pkg/authz/engine.go:241-278 | The same from the middle of any run: only the growth of the counters matters |
| `Cost.CleanRequestCost` | pkg/authz/engine.go:260-276 | An error-free request without cuts reads at most the read leaves of the (node, polarity) pairs it memoized, each pair once |
| `Cost.CheckCost` | pkg/authz/engine.go:241-278 | Inside any run: the memo only grows, and an uncut check reads at most the leaves of the pairs it added |
| `Solutions.TrueNodesClosed` | pkg/authz/engine.go:280-334 | In exclusion-free models the Kleene-true nodes are closed under the rewrite rules |
| `Solutions.TrueNodesLeast` | pkg/authz/engine.go:280-334 | They are contained in every closed set: they are the least fixpoint |
| `Solutions.TrueNodesSolve` | pkg/authz/engine.go:280-334 | In exclusion-free models the Kleene-true nodes solve the rewrite equations |
| `Solutions.SettledNodesBalance` | pkg/authz/engine.go:280-334 | On every graph, exclusion included: the Kleene-true nodes and those not Kleene-false are a pair of bounds the rewrite equations return, each read through the other under exclude sides |
| `Solutions.SettledInSolutions` | pkg/authz/engine.go:280-334 | A settled value is the value in every interpretation solving the rewrite equations, exclusion included |
| `Solutions.OrderIrrelevant` | pkg/authz/engine.go:342-379 | The reference meaning does not depend on the order in which a store lists subjects |
| `Engine.EvalState.ChargeRead` | pkg/authz/engine.go:141-148 | One read counted; refused exactly when a positive budget is exceeded |
| `Engine.CheckNode` | pkg/authz/engine.go:241-278 | The imperative check performs the specified run, restores the visited set on every return, error or not, and makes exactly one store read for every read charged and not refused |
| `Engine.RunRewrite` | pkg/authz/engine.go:280-334 | Performs exactly the specified run of one rewrite, with the same scratch state left behind; every read charged and not refused is one store read |
| `Engine.RunUnion` | pkg/authz/engine.go:284-294 | Performs exactly the specified run of the union loop, stopping at the first yes or error, with the same scratch state left behind; every read charged and not refused is one store read |
| `Engine.RunIntersection` | pkg/authz/engine.go:295-312 | Performs exactly the specified run of the intersection loop, with the same scratch state left behind; every read charged and not refused is one store read |
| `Engine.RunThis` | pkg/authz/engine.go:342-379 | Performs exactly the specified run of the stored-subjects loop, with conditions, wildcards, the structural match and nested usersets, with the same scratch state left behind; one store read if the charge is not refused |
| `Engine.RunTupleToUserset` | pkg/authz/engine.go:383-408 | Performs exactly the specified run of the tuple-to-userset loop, conditions on pointers included, with the same scratch state left behind; one store read if the charge is not refused |
| `Engine.FanOutBudget` | pkg/authz/engine.go:97-106 | The larger of the single-Check budget and candidates x depth x headroom; unbounded exactly when the base is |
| `Engine.ExpandBudget` | pkg/authz/engine.go:118-127 | The larger of the single-Check budget and node cap x headroom; unbounded exactly when the base is |
| `Engine.CheckWithModel` | pkg/authz/engine.go:230-232 | The unbudgeted answer if that takes no more reads than the project's budget, or the engine's where the project has none, and else the budget error; the store reads made never exceed a positive budget, answered or not |
| `ListObjects.CheckAfresh` | pkg/authz/engine.go:463-469 | A Check inside a longer operation answers as it would alone, and errs exactly when the reads so far plus its own exceed the budget |
| `ListObjects.Scan` | pkg/authz/engine.go:461-474 | The candidate loop returns, in order, the candidates whose own unbudgeted Check is true, or errs exactly when their Checks together need more reads than the budget, having made exactly the budgeted ones |
| `ListObjects.ListObjectsWithModel` | pkg/authz/engine.go:433-475 | With the object cap and the fan-out budget: too many candidates, budget error, or exactly the hits, each under its exact condition; the store reads are none, those of all the candidates' Checks, or exactly the budget |
| `ListObjects.HitsAreThoseAllowed` | pkg/authz/engine.go:461-474 | The hits are those candidates, and only those, on which a Check from fresh state is true |
| `ListObjects.ListingIsComplete` | pkg/authz/engine.go:433-475 | Over all object ids: listed exactly when its own Check is true, since Check denies every object with no stored tuple |
| `Expansion.ExpandState.Bump` | pkg/authz/expand.go:15-21 | Counts nodes through the shared counter and refuses exactly above a positive cap |
| `Expansion.ExpandNode` | pkg/authz/expand.go:69-86 | The imperative expand performs the specified run and restores its visited set; every read charged and not refused is one store read |
| `Expansion.ExpandRule` | pkg/authz/expand.go:88-173 | Performs exactly the specified run of one rewrite, including both sides of an exclusion, with the same scratch state left behind |
| `Expansion.ExpandStored` | pkg/authz/expand.go:97-116 | One read and one charged node per stored subject, out of reads before too large, each under its exact condition |
| `Expansion.CollectLeaf` | pkg/authz/expand.go:105-116 | The leaf loop splits stored subjects into users, usersets and the public flag, in order |
| `Expansion.ExpandChildren` | pkg/authz/expand.go:117-136 | Performs exactly the specified run of the union and intersection loops, with the same scratch state left behind |
| `Expansion.ExpandTargets` | pkg/authz/expand.go:149-169 | Performs exactly the specified run of the tuple-to-userset loop, with the same scratch state left behind |
| `ExpandMeaning.ExpandPreservesMeaning` | pkg/authz/expand.go:69-173 | Untruncated, the set-algebra reading of the tree is the relation with conditions forgotten, for every user, exclusion included, leaves read by any solution of the rewrite equations or by any pair of bounds the equations return |
| `ExpandMeaning.ExpandIsSound` | pkg/authz/expand.go:69-173 | Without exclusions even a truncated tree grants nothing outside the least fixpoint, conditions forgotten |
| `ExpandMeaning.GuardedExpandIsSound` | pkg/authz/expand.go:69-173 | With exclusions even a truncated tree grants nothing the bounds do not, where no cut falls under an exclude side, conditions forgotten |
| `Completeness.ExpandShowsSettled` | pkg/authz/expand.go:69-173 | Exclusions, cycles and truncations elsewhere notwithstanding: of every user settled within maxDepth + 1 levels, conditions forgotten, a returned tree says exactly what is settled, its leaves read by the settled nodes |
| `Conditions.TreesIgnoreConditions` | pkg/authz/expand.go:69-173 | Expand, and member resolution, are run for run what they would be in the store with every condition taken off |
| `Shallow.ExpandUncutIff` | pkg/authz/expand.go:69-173 | A returned tree is untruncated if and only if every walk from the node ends within the depth limit |
| `ExpandCap.TooLargeIff` | pkg/authz/expand.go:15-21 | Without a read budget an Expand is refused as too large if and only if the nodes and leaf subjects it visits are more than a positive cap; otherwise it returns a tree |
| `Counterexamples.CutExclusionIsNotExpanded` | pkg/authz/expand.go:69-173 | A store on which the tree grants, however its leaves are read, a user the reference settles to false: its exclude side is a truncation stub |
| `ExpandMeaning.ExpandRespectsCap` | pkg/authz/expand.go:15-21 | Nodes plus leaf subjects of a response, truncation stubs aside, never exceed a positive cap |
| `FanOutCut.TopExpandCut` | pkg/authz/expand.go:64-173 | A budgeted Expand runs out of reads exactly when the unbudgeted one reads more than the budget, and is otherwise the same |
| `FanOutCut.ExpandWithModel` | pkg/authz/expand.go:64-67 | A whole Expand is the specified run under its read budget; its store reads never exceed a positive budget, answered or not |
| `CheckSet.ResolveMembers` | pkg/authz/checkset.go:95-117 | The imperative member resolution performs the specified run and restores its visited set; every read charged and not refused is one store read |
| `CheckSet.MembersOfTree` | pkg/authz/checkset.go:122-199 | Performs exactly the specified run of one expanded tree, with the same scratch state left behind |
| `CheckSet.UnionOfTrees` | pkg/authz/checkset.go:124-137 | Performs exactly the specified run of the union loop, with the same scratch state left behind |
| `CheckSet.IntersectionOfTrees` | pkg/authz/checkset.go:139-160 | Performs exactly the specified run of the intersection loop, where everyone does not restrict, with the same scratch state left behind |
| `CheckSet.IntersectUsers` | pkg/authz/checkset.go:201-212 | Set intersection by a loop over one side |
| `CheckSet.MembersOfLeaf` | pkg/authz/checkset.go:181-197 | Performs exactly the specified run of a leaf: its users and the members of its usersets, with the same scratch state left behind |
| `CheckSet.CheckMembers` | pkg/authz/checkset.go:63-73 | The per-member loop answers whether some member has the relation, whatever order the set yields, and errs exactly when that order needs more reads, one past the budget charged |
| `CheckSet.RunCheckSet` | pkg/authz/checkset.go:35-88 | Structural query, resolution and per-member Checks over one budget: any result is the order-free answer, the budget error appears exactly when the order met needs more reads, and the reads made are those needed or exactly the budget |
| `CheckSet.CheckSetWithModel` | pkg/authz/checkset.go:35-88 | The same under the effective fan-out budget, with the same exact count of reads |
| `CheckSet.CheckSetIsSound` | pkg/authz/checkset.go:35-88 | A yes is deserved: the queried set is found in the target within maxDepth + 1 levels, which then includes it, or the two share a user; for models without exclusions, and with exclusions where no cut falls under an exclude side and every subtraction met is exact or leaves nobody |
| `CheckSet.CheckSetFindsShared` | pkg/authz/checkset.go:35-88 | The converse, exclusions, cycles and cuts included: a user settled into the queried set and into the target within maxDepth + 1 levels makes the answer yes where the subtractions met are exact |
| `CheckSet.CheckSetFindsSet` | pkg/authz/checkset.go:35-88 | A queried set found in the target within maxDepth + 1 levels makes the answer yes |
| `CheckSet.SharedUserIsFound` | pkg/authz/checkset.go:35-88 | Without exclusions nothing more is asked: a user settled into both within maxDepth + 1 levels makes the answer yes |
| `CheckSet.WholeFindsShared` | pkg/authz/checkset.go:35-88 | Where resolution meets no cut, a user not settled out of the queried set at any depth and settled true on the target makes the answer yes |
| `CheckSet.WholeIsTrusted` | pkg/authz/checkset.go:95-199 | Whatever untruncated, exact resolution finds shared users, soundness accepts |
| `MemberMeaning.ResolveIsSound` | pkg/authz/checkset.go:95-199 | On cyclic and deep graphs: every resolved user is in the least fixpoint, conditions forgotten, and a public result means every user is; for exclusion-free models |
| `MemberMeaning.SubtractIsExactIff` | pkg/authz/checkset.go:162-179 | The code's subtraction is set difference for every user if and only if nothing is taken from everyone, and an excluded everyone is taken only from users it also names |
| `MemberMeaning.CutSubtractionIsSafeIff` | pkg/authz/checkset.go:162-179 | When only part of the exclude side was found, the subtraction excludes everyone it should, whatever the cut hides, if and only if it leaves nobody |
| `MemberMeaning.GuardedResolutionIsSound` | pkg/authz/checkset.go:95-199 | With exclusions, on cyclic and deep graphs: every resolved user is Kleene-true, conditions forgotten, where each subtraction leaves nobody, or is exact and no cut falls under its exclude side |
| `MemberMeaning.FairResolutionIsExact` | pkg/authz/checkset.go:95-199 | Untruncated, and with that condition at every exclusion met, resolution settles every user, conditions forgotten: members Kleene-true, all others Kleene-false, so it is exact in every solution, public grants and exclusions elsewhere notwithstanding |
| `MemberMeaning.ResolveIsExact` | pkg/authz/checkset.go:95-199 | In particular untruncated resolution is exact when the model has no exclusion or the store no public grant |
| `Completeness.ResolutionShowsSettled` | pkg/authz/checkset.go:95-199 | Cycles and cuts elsewhere notwithstanding: a user settled within maxDepth + 1 levels, conditions forgotten, is resolved if and only if settled true, where the subtractions met are exact |
| `Completeness.PlainResolutionShowsSettled` | pkg/authz/checkset.go:95-199 | In particular in every model without exclusions, and in every store without public grants |
| `Conditions.StrippedSettlesMore` | pkg/authz/checkset.go:95-199 | Without exclusions whoever is settled true with conditions is settled true with them forgotten, at the same depth |
| `FanOutCut.ResolveCut` | pkg/authz/checkset.go:95-117 | A budgeted resolution is the unbudgeted one until it needs more reads than the budget |
| `Counterexamples.PublicExclusionIsNotSubtracted` | pkg/authz/checkset.go:162-179 | A concrete store where an excluded everyone is not subtracted: resolution returns a user the reference settles to false |
| `Counterexamples.CutExclusionIsNotSubtracted` | pkg/authz/checkset.go:95-179 | At every depth limit a store without public grants, conditions or inexact subtractions, on which resolution returns a user the reference settles to false and Check denies: the exclude side was cut, contrary to the comment |
| `Inert.InertTuplesChangeNothing` | pkg/authz/model.go:114-159 | If a declared relation reaches no stored-tuples leaf and no rule of its namespace walks it as a tupleset, two stores differing only on it give identical Check and Expand runs and identical CheckSet answers and costs |
| `Inert.ComputedOnlyIsInertIff` | pkg/authz/model.go:114-159 | For a computed-only relation of any model: its tuples never show in an Expand exactly when no rule of its namespace walks it as a tupleset |
| `Inert.CheckIgnoresIff` | pkg/authz/model.go:114-159 | For a computed-only relation that is not walked, or openly by some rule (under unions only): its tuples never change a Check, on any store, query, context and budget, exactly when no rule of its namespace walks it |
| `Inert.AdditiveCheckIgnoresIff` | pkg/authz/model.go:114-159 | In particular in a namespace whose rules use only unions, stored tuples, computed relations and tupleset walks |
| `Inert.OpenWalkDecides` | pkg/authz/model.go:114-151 | Wherever a rule openly walks a relation, some pointer stored on it turns a denied Check into a granted one, whatever else the model says |
| `Inert.WalkedTuplesetDecides` | pkg/authz/model.go:114-151 | A tuple on a computed-only relation changes a Check when a rule walks that relation, contrary to the comment |
| `Grades.GradeCheck` | pkg/authz/model.go:183-190 | The walk up the chain of grades answers whether a direct tuple is stored at the grade or above |
| `Grades.GradeCheckSound` | pkg/authz/model.go:183-190 | At any depth and under any budget a yes comes from a direct tuple at the grade or above |
| `Grades.WorkspaceCheckIsExact` | pkg/authz/model.go:183-190 | With rows and tuples in step, for every user: Check under the default model is true exactly when the stored tuples grant the grade, which is exactly when the active row has at least that grade and has not lost its tuple |
| `Inheritance.AccessIsInherited` | pkg/authz/model.go:202-207 | Under the default model a user is an editor, or a viewer, of a resource if and only if they hold a grant of their own on it, or on a resource up a chain of parents whose conditions are met, or the relation on a non-resource parent that ends the chain |
| `Inheritance.CheckIsInherited` | pkg/authz/model.go:202-207 | So a yes of Check, at any depth and budget, comes from such a grant |
| `Inheritance.WorkspacePassesOn` | pkg/authz/model.go:183-190 | With rows and tuples in step, a workspace parent passes editing to exactly its admins and viewing to exactly its members, by active rows that have not lost their tuple |
| `Isolation.ExpiredIsUnseen` | pkg/authz/model.go:54-58 | An engine reads a table at an instant exactly if it reads, at any time, the table of those tuples that have no expiry or one later than the instant |
| `SameRun.UnnamedUsersAreIndistinguishable` | pkg/authz/engine.go:342-379 | Any two users whom no tuple names get the same run of every Check, on every node and in every context |
| `Grades.ConfiguredIsAmple` | internal/config/config.go:214-266 | Every read budget the configuration accepts, global or of a project, is enough for the whole chain of grades |
| `Grades.GuardIsDenial` | internal/service/service.go:170-183 | What the engine answers to the guard is what the stored role tuples say |
| `Grades.GuardIsSound` | internal/service/service.go:170-183 | At any depth and under any budget the guard lets through only those whom the stored role tuples do |
| `Service.Gateway.RequireWorkspace` | internal/service/service.go:160-183 | The guard: missing workspace, denial, exhausted budget or passage, by the engine's own Check |
| `MembershipRuns.OwnerPassesIff` | internal/service/service.go:160-183 | After every run the recorded owner of an owned workspace passes the owner guard if and only if they are named and an erase has not left their row without its tuple |
| `Policy.OnlyThePermittedAct` | internal/service/service.go:160-183 | At any depth and budget, said of the stored rows: deleting and transferring take an active owner row, adding, changing, removing, suspending, reinstating, inviting and revoking an active admin row, in that workspace and with its tuple; anyone else is refused and changes nothing |
| `Provenance.EveryActIsPermitted` | internal/service/service.go:160-183 | At every point of every run: a request whose caller lacks the standing it takes is refused and changes nothing |
| `TupleKeys.TupleKeyIff` | internal/repo/memory/memory.go:71-88 | For arbitrary strings: two tuples share a key exactly when they have the same node and the same subject identity |
| `TupleKeys.PartDecodes` | internal/repo/memory/memory.go:71-73 | Length-prefixed parts are self-delimiting: the first part and the rest can be read off |
| `TupleKeys.ScopeInProjectIff` | internal/repo/memory/memory.go:53-62 | For NUL-free project ids: a scope has a project's prefix exactly when it is that project's |
| `TupleKeys.ScopeInjective` | internal/repo/memory/memory.go:53-62 | For NUL-free project ids: a scope names one project and one tenant |
| `TupleKeys.ScopeCollision` | internal/repo/memory/memory.go:53-62 | With a NUL in an id two tenants share a scope |
| `Store.RemoveStores` | internal/repo/memory/memory.go:163-165 | Deleting a batch removes exactly the tuples it identifies |
| `Store.InsertStores` | internal/repo/memory/memory.go:166-168 | Inserting a batch stores its last write per identity and keeps every other tuple |
| `Seats.WriteStores` | internal/repo/memory/memory.go:155-173 | A batch deletes first and inserts after: exactly what is stored afterwards |
| `MemoryDriver.MemoryStore.WriteTuples` | internal/repo/memory/memory.go:141-173 | The two loops perform the specified batch on one shard and advance its sequence |
| `MemoryDriver.MemoryStore.ListSubjects` | internal/repo/memory/memory.go:175-186 | Exactly the subjects of the active tuples of a node; each once when tuples are stored under their keys |
| `MemoryDriver.MemoryStore.ReadShard` | internal/repo/memory/memory.go:175-186 | What an engine can read of a shard at one instant: every node lists exactly its stored active subjects, each once when tuples are stored under their keys |
| `MemoryDriver.MemoryStore.ListObjectIDs` | internal/repo/memory/memory.go:188-202 | Exactly the objects with an active tuple in a namespace, in strictly ascending order |
| `MemoryDriver.MemoryStore.DeleteAllSubjectTuplesInProject` | internal/repo/memory/memory.go:231-259 | Every shard of the project loses the user's tuples and seats, every other shard is untouched, and the count is the number of tuples deleted |
| `MemoryDriver.MemoryStore.CreateWorkspace` | internal/repo/memory/memory.go:327-348 | Refuses a taken id and a second personal workspace of one owner; otherwise adds the row |
| `Convergence.OnePersonalAlways` | internal/repo/memory/memory.go:327-348 | After every run of any requests no user has two personal workspaces |
| `MemoryDriver.MemoryStore.UpdateWorkspace` | internal/repo/memory/memory.go:360-369 | Replaces an existing row only |
| `MemoryDriver.MemoryStore.DeleteWorkspace` | internal/repo/memory/memory.go:371-392 | Cascades to memberships, workspace tuples and invitations of that workspace and nothing else |
| `MemoryDriver.MemoryStore.PersonalWorkspace` | internal/repo/memory/memory.go:394-404 | A personal workspace of the user, or proof that there is none |
| `MemoryDriver.MemoryStore.PutMembershipAndTuples` | internal/repo/memory/memory.go:455-463 | Row and tuples change together in one shard |
| `MemoryDriver.MemoryStore.DeleteMembershipAndTuples` | internal/repo/memory/memory.go:465-475 | A missing row leaves both untouched |
| `MemoryDriver.MemoryStore.CreateInvitation` | internal/repo/memory/memory.go:522-536 | Refuses a taken id |
| `MemoryDriver.MemoryStore.UpdateInvitation` | internal/repo/memory/memory.go:560-569 | Replaces an existing row only |
| `MemoryDriver.MemoryStore.GetInvitationByTokenHash` | internal/repo/memory/memory.go:548-558 | An invitation with the hash, or proof that there is none |
| `MemoryDriver.MemoryStore.SetSeatLimit` | internal/repo/memory/memory.go:710-724 | Sets or clears the cap of one sku |
| `MemoryDriver.MemoryStore.AssignSeatAndTuple` | internal/repo/memory/memory.go:741-764 | Re-asserts a held seat, refuses at the cap, or takes one seat with its tuple |
| `MemoryDriver.MemoryStore.RevokeSeatAndTuple` | internal/repo/memory/memory.go:766-773 | Frees the seat and deletes its tuple |
| `Requests.StepIsLocal` | internal/repo/memory/memory.go:156-259 | Every request, and the project-wide erase, acts on each shard by itself |
| `Isolation.ShardsAreIsolated` | internal/repo/memory/memory.go:53-62 | For NUL-free project ids: after any run a shard is what its own calls alone would have made it |
| `Isolation.EraseReachesExactly` | internal/repo/memory/memory.go:231-259 | For NUL-free project ids: the erase changes every tenant of its project and no shard of another |
| `Isolation.SameTableSameCheck` | internal/repo/memory/memory.go:175-186 | A settled Check depends on the stored tuples, not on the order in which the driver lists them |
| `Isolation.DriverListsEnough` | internal/repo/memory/memory.go:188-202 | Scanning the object ids the driver lists finds every object on which Check is true, over all ids |
| `Isolation.DeprovisionedIsAnonymous` | internal/repo/memory/memory.go:231-259 | After any run and an erase, in every tenant of the project: Check for the user is, run for run, Check for any user no tuple names, and no seat remains |
| `Sequence.UnsequencedIffSilent` | internal/repo/memory/memory.go:156-259 | The write sequence never falls in a step, and a step changes the tuple table without advancing it if and only if it is an erase, of a non-empty user of the shard's project, that takes a stored tuple |
| `Sequence.EraseSkipsSequence` | internal/repo/memory/memory.go:231-259 | A concrete store on which the erase takes the only tuple and the sequence stays, contrary to the comment |
| `Sequence.SequenceTellsIff` | internal/repo/memory/memory.go:156-259 | Between any two points of any run the sequence does not fall; where it stands still the later table is part of the earlier one, and the same table if and only if no step between was such an erase |
| `Sequence.StateIsRun` | internal/repo/memory/memory.go:156-259 | The shard states these statements speak of are those of the run |
| `Seats.AssignKeepsStep` | internal/service/seats.go:73-83 | Assigning keeps assigned pairs and stored seat tuples the same thing |
| `Seats.RevokeKeepsStep` | internal/service/seats.go:89-97 | Revoking keeps assigned pairs and stored seat tuples the same thing |
| `Seats.NewSeatFits` | internal/service/seats.go:73-83 | A new seat fits under the cap and takes exactly one seat of one sku |
| `Seats.HoldersAreCounted` | internal/service/seats.go:10-24 | Seats in use are exactly as many as the stored holder tuples |
| `Seats.RefusedAtCapIff` | internal/service/seats.go:73-83 | Read off the tuples alone: refused for lack of seats if and only if the project is active, the user's own holder tuple is not stored, and at least as many holder tuples are as the cap allows |
| `Seats.SeatCheckIsExact` | internal/service/seats.go:16-24 | Without a model for the seat namespace, Check on a seat is true exactly for its holders |
| `SeatRuns.SeatsAlwaysInStep` | internal/service/seats.go:10-24 | After every run of any requests on any shards, crashes, raw writes and deprovisioning included: assigned pairs are exactly the stored seat tuples |
| `SeatRuns.SeatCheckAfterAnyRun` | internal/service/seats.go:16-24 | So after every run Check on a seat is true exactly for its holders |
| `SeatRuns.OverCapIffLowered` | internal/service/seats.go:32-59 | A step takes a sku above its limit exactly when it is an accepted setting of a limit below the seats in use |
| `SeatRuns.NeverOverCap` | internal/service/seats.go:73-83 | Over a run that never lowers a limit below use, no sku is ever above its limit |
| `SeatLedger.LedgerIsKept` | internal/service/seats.go:32-97 | After every run, deprovisioning included: the limit stored for a sku is that of the last accepted limit request, or none, and its holders are those the accepted requests left |
| `SeatLedger.SeatGrantedIff` | internal/service/seats.go:73-83 | After every run a request for a seat is granted a new one if and only if it is well formed, the project active, the user without a seat, and the seats in use fewer than the last accepted limit or no limit stands |
| `Effects.RevokeUndoesAssign` | internal/service/seats.go:73-97 | Revoking a seat just assigned gives back the seats, limits and tuples there were |
| `Service.Gateway.SetSeatLimit` | internal/service/seats.go:32-50 | In place: the new shard and the reply are those of the request machine and every other shard is untouched; soundness of seats, and of members under the default model, is kept in every shard |
| `Service.Gateway.AssignSeat` | internal/service/seats.go:73-83 | In place: the new shard and the reply are those of the request machine and every other shard is untouched; soundness of seats, and of members under the default model, is kept in every shard, telling a held seat from a new one |
| `Service.Gateway.RevokeSeat` | internal/service/seats.go:89-97 | In place: the new shard and the reply are those of the request machine and every other shard is untouched; soundness of seats, and of members under the default model, is kept in every shard |
| `Service.SplitOps` | internal/service/authz.go:25-35 | The loop accepts exactly batches of valid tuples and separates inserts from deletes in order |
| `Service.AllWritable` | internal/service/authz.go:50-55 | Accepts exactly batches without an insert on a computed-only relation |
| `Shapes.ValidIff` | internal/service/authz.go:330-373 | A raw tuple is accepted exactly when its names are non-empty, its namespace is not the reserved one, its subject is exactly one of user, complete userset and wildcard, its condition is known and no string has a control character |
| `Shapes.StoredAreWellShaped` | internal/service/authz.go:330-373 | At every point of every run by identified callers every stored tuple, however it got there, has exactly one kind of subject and a known condition |
| `Shapes.ReachableIsNamed` | internal/service/authz.go:330-373 | So the engine never meets an anonymous user: the naming hypothesis of the Expand and CheckSet theorems holds of every reachable shard |
| `Service.Gateway.WriteTuples` | internal/service/authz.go:24-66 | Validates the whole batch, then writes it, or changes nothing, as the request machine does; answers with a token naming the shard and the sequence it has reached; soundness of seats, and of members when raw writes stay off workspaces, is kept |
| `Service.Gateway.DeprovisionUser` | internal/service/authz.go:261-269 | Refuses an empty user, then a region not served; otherwise erases the user in every tenant of the project and counts the tuples erased; soundness of seats and members is kept |
| `Effects.DeprovisionedHoldsNothing` | internal/service/authz.go:257-269 | Deprovisioning keeps every row and takes every grade from that user and from nobody else |
| `MembershipSteps.EraseKeeps` | internal/service/authz.go:257-269 | Deprovisioning keeps the invariant, and exactly the user's active rows lose their tuples |
| `MembershipRuns.RawRoleKeepsIff` | internal/service/authz.go:24-66 | Under the default model a raw write may insert a role tuple, and keeps the invariant if and only if the tuple is already the role of an active row: why runs with other raw workspace writes are outside the run theorems |
| `Service.Gateway.EnsureConsistency` | internal/service/authz.go:77-96 | A blank token passes, an undecodable or foreign one is invalid, one beyond the shard's sequence fails, any other passes |
| `Sequence.TokenIsHonoured` | internal/service/authz.go:57-96 | Between any two points of any run a token passes for its own project and tenant and for no other: at the point it was issued, at every later one, and at an earlier one exactly when nothing was sequenced in between |
| `SeatRuns.RawAside` | internal/service/authz.go:334-340 | A raw write never touches seat rows or seat tuples |
| `Seats.EraseKeepsStep` | internal/service/authz.go:250-269 | Deprovisioning keeps seats and seat tuples in step |
| `MembershipSteps.CreateKeeps` | internal/service/workspaces.go:75-94 | A creation, whole or cut, keeps the invariant, moves at most the creator to owner, and leaves its workspace ownerless exactly when it is cut between its two steps |
| `MembershipSteps.DeleteKeeps` | internal/service/workspaces.go:126-135 | Deleting a workspace keeps the invariant, and exactly its members lose their standing |
| `MembershipRuns.CutPersonalStaysOrphaned` | internal/service/workspaces.go:10-39 | A personal workspace whose creation was cut is handed out again as it is, and nobody may act on it, contrary to the comment in the creation path |
| `Service.Gateway.CreateWorkspaceWithOwner` | internal/service/workspaces.go:75-94 | Row first, then owner row and tuple |
| `Service.Gateway.CreateWorkspace` | internal/service/workspaces.go:42-71 | In place: the new shard and the reply are those of the request machine and every other shard is untouched; soundness of seats, and of members under the default model, is kept in every shard; an empty display name is refused |
| `Service.Gateway.EnsurePersonalWorkspace` | internal/service/workspaces.go:13-39 | Returns an existing personal workspace or creates one; an id taken by another workspace is reported as not found; in place: the new shard and the reply are those of the request machine and every other shard is untouched; soundness of seats, and of members under the default model, is kept in every shard |
| `Convergence.FirstCallsConverge` | internal/service/workspaces.go:10-39 | However any number of first calls interleave, repository step by step, with each other and with other requests: all calls of a user that have ended hold the same workspace, which is there and theirs, and a call fails only if its new id was taken |
| `Convergence.AloneIsEnsure` | internal/service/workspaces.go:13-39 | A call whose steps are not interleaved does what the whole operation does |
| `Service.Gateway.DeleteWorkspace` | internal/service/workspaces.go:126-135 | In place: the new shard and the reply are those of the request machine and every other shard is untouched; soundness of seats, and of members under the default model, is kept in every shard |
| `Workspaces.RolesAreExact` | internal/service/members.go:120-171 | A role tuple of (workspace, user) is stored if and only if it is the role of an active row that has not lost its tuple |
| `Workspaces.HoldsIsRank` | internal/service/members.go:13-171 | Holding a grade is having an active row of at least that grade that has not lost its tuple |
| `Workspaces.LostAfterMoves` | internal/service/members.go:13-171 | After any accepted writes of rows exactly the written pairs have their row and tuple back in step |
| `MembershipSteps.AddKeeps` | internal/service/members.go:13-58 | Adding a member keeps the invariant, no workspace loses or regains an owner, and no standing but that of the named member changes, to the given role |
| `MembershipSteps.UpdateKeeps` | internal/service/members.go:62-94 | A role change keeps the invariant, no workspace loses or regains an owner, and no standing but that of the named member changes, to the given role |
| `MembershipSteps.RemoveKeeps` | internal/service/members.go:97-110 | A removal keeps the invariant, no workspace loses or regains an owner, and no standing but that of the named member changes, to none |
| `MembershipSteps.SuspendKeeps` | internal/service/members.go:125-147 | A suspension keeps the invariant, no workspace loses or regains an owner, and no standing but that of the named member changes, to none |
| `MembershipSteps.ReinstateKeeps` | internal/service/members.go:151-171 | A reinstatement keeps the invariant, no workspace loses or regains an owner, and no standing but that of the named member changes, to the role of the row |
| `MembershipRuns.StepKeepsInv` | internal/service/members.go:13-171 | Every request on every shard, and every erase, keeps the invariant; only a cut creation leaves a new ownerless workspace; an erase leaves the user's active rows without tuples and any request puts the pairs it wrote back in step |
| `MembershipRuns.InvAlways` | internal/service/members.go:13-171 | After every run, at any depth and budget, crashes, seats, raw writes elsewhere and deprovisioning included: role tuples belong to active rows, an active row lacks its tuple if and only if an erase took it and no later request wrote the row, every workspace with members or invitations has its active owner, and a workspace is ownerless if and only if a crash cut its creation |
| `MembershipRuns.WorkspaceCheckAfterAnyRun` | internal/service/members.go:13-171 | After every run and for every user, deprovisioned ones included: Check under the default model is true if and only if the user is named, has an active row of at least the asked grade, and no erase has left that row without its tuple |
| `Policy.AcceptedIff` | internal/service/members.go:13-171 | With depth and reads enough, a request that no crash cuts is accepted if and only if it is well formed, its caller has that standing, what it names is there and the state allows it; every refusal names a reason that holds, so an entitled caller is never denied permission |
| `Outcomes.AcceptedAchieves` | internal/service/members.go:13-171 | Every accepted request has achieved what it is for, said of the rows afterwards: roles and statuses set, owners exchanged, rows gone, invitations stored with their role, hash and a seven-day expiry, seats and limits set |
| `Outcomes.OnlyTheNamedChange` | internal/service/members.go:13-171 | Whatever a request answers and wherever a crash cuts it, every row, invitation, limit and seat it does not name is as it was |
| `Outcomes.OtherNamespacesAreKept` | internal/service/members.go:13-171 | Only raw writes reach tuples outside the workspace and seat namespaces |
| `Provenance.EveryAnswerIsDecided` | internal/service/members.go:13-171 | At every point of every run the acceptance condition decides, given depth and reads enough |
| `Provenance.RolesAreGiven` | internal/service/members.go:13-171 | At every point of every run every role shown goes back to an earlier call that gave it: the creation of the workspace, an admin adding or changing the member, an owner transferring, or the acceptance of a pending, unexpired invitation that an admin had made for that role |
| `Provenance.HistoryIsRun` | internal/service/members.go:13-171 | The shard states these statements speak of are those of the run |
| `Effects.CheckAfterRequest` | internal/service/members.go:13-171 | Whatever a request answers and wherever a crash cuts it: for every workspace, user and grade Check answers afterwards as before, except for the pairs the request moved (the member, the former owner, the creator, the members of a deleted workspace), and for those by the role it moved them to |
| `Effects.RefusedChangesNothing` | internal/service/members.go:13-171 | A refused request leaves the shard as it was, or is an acceptance that marks the invitation it found expired and changes nothing else |
| `Effects.ReinstateUndoesSuspend` | internal/service/members.go:125-171 | Reinstating a member just suspended, whose row had its tuple, restores the shard but for the write sequence |
| `Effects.RemoveUndoesAdd` | internal/service/members.go:13-110 | Removing a member just added restores the shard but for the write sequence |
| `Service.Gateway.PutMember` | internal/service/members.go:36-58 | Row and role tuple together, in an active project only |
| `Service.Gateway.AddMember` | internal/service/members.go:13-33 | In place: the new shard and the reply are those of the request machine and every other shard is untouched; soundness of seats, and of members under the default model, is kept in every shard |
| `Service.Gateway.UpdateMemberRole` | internal/service/members.go:62-94 | In place: the new shard and the reply are those of the request machine and every other shard is untouched; soundness of seats, and of members under the default model, is kept in every shard |
| `Service.Gateway.RemoveMember` | internal/service/members.go:97-110 | In place: the new shard and the reply are those of the request machine and every other shard is untouched; soundness of seats, and of members under the default model, is kept in every shard |
| `Service.Gateway.SuspendMember` | internal/service/members.go:125-147 | In place: the new shard and the reply are those of the request machine and every other shard is untouched; soundness of seats, and of members under the default model, is kept in every shard |
| `Service.Gateway.ReinstateMember` | internal/service/members.go:151-171 | In place: the new shard and the reply are those of the request machine and every other shard is untouched; soundness of seats, and of members under the default model, is kept in every shard |
| `MembershipSteps.TransferStepsKeep` | internal/service/ownership.go:41-99 | However many of the three steps complete, the invariant holds, the workspace keeps an owner, and no standing but those of the new and the former owner changes |
| `MembershipSteps.AllStepsKeep` | internal/service/ownership.go:41-99 | A completed transfer: the new owner owns, the former one is an active admin, no other row changed |
| `MembershipSteps.TransferKeeps` | internal/service/ownership.go:20-99 | The same behind the guard, for every caller and every crash point |
| `Service.Gateway.TransferOwnership` | internal/service/ownership.go:20-99 | In place: the new shard and the reply are those of the request machine and every other shard is untouched; soundness of seats, and of members under the default model, is kept in every shard |
| `Service.Gateway.RunTransfer` | internal/service/ownership.go:68-98 | Promote, record, demote, in this order |
| `MembershipSteps.AcceptKeeps` | internal/service/invitations.go:56-94 | Accepting, whole or cut, keeps the invariant and moves at most the newcomer, to the invited role |
| `MembershipSteps.InviteKeeps` | internal/service/invitations.go:15-52 | Inviting keeps the invariant; only an owned workspace gets invitations |
| `Provenance.InvitationsAreIssued` | internal/service/invitations.go:15-52 | At every point of every run every stored invitation was made by a caller then an admin of its workspace, with that role and hash, and expires seven days after that call |
| `MembershipSteps.RevokeInvitationKeeps` | internal/service/invitations.go:103-116 | Revoking an invitation keeps the invariant |
| `Service.Gateway.CreateInvitation` | internal/service/invitations.go:15-52 | In place: the new shard and the reply are those of the request machine and every other shard is untouched; soundness of seats, and of members under the default model, is kept in every shard |
| `Service.Gateway.AcceptInvitation` | internal/service/invitations.go:56-94 | Takes an invitation stored under the token's hash, or none is stored; then performs the request machine's acceptance, keeping seats and members sound |
| `Service.Gateway.RevokeInvitation` | internal/service/invitations.go:103-116 | In place: the new shard and the reply are those of the request machine and every other shard is untouched; soundness of seats, and of members under the default model, is kept in every shard |
| `RateLimiter.WindowBound` | internal/connect/ratelimit.go:35-75 | Over every run with a clock that never goes back, in every window a key is granted at most the per-minute setting plus a sixtieth of it per second of the window's length |
| `RateExactness.GrantedIffItFits` | internal/connect/ratelimit.go:52-75 | The decision exactly, for every per-minute setting: a request is granted if and only if limiting is disabled or, in every window it ends, the key's grants including it stay within the setting plus a sixtieth of it per second |
| `RateExactness.DeniedIsShort` | internal/connect/ratelimit.go:52-75 | A denied request: the credit at the start and all earned since was spent, or some later window was short of credit |
| `RateLimiter.PruningIsUnobservable` | internal/connect/ratelimit.go:77-90 | A limiter that prunes decides every run as one that never does |
| `RateLimiter.NewRateLimiter` | internal/connect/ratelimit.go:35-48 | A new limiter in place is the specified one; a setting of zero or less yields none |
| `RateLimiter.RunFollows` | internal/connect/ratelimit.go:52-75 | The limiter, pruning or not, decides every run as a meter whose keys hold seconds of credit, at most a minute, and pay a fixed number of seconds per request |
| `RateLimiter.TokenBuckets.PruneLocked` | internal/connect/ratelimit.go:80-90 | The in-place loop deletes exactly the buckets idle for more than two minutes, at most once a minute |
| `RateLimiter.TokenBuckets.AllowKey` | internal/connect/ratelimit.go:52-75 | One in-place decision is the specified one |
| `RateLimiter.AllowOrDisabled` | internal/connect/ratelimit.go:52-55 | A disabled limiter allows everything |
| `ModelDocs.DocumentRoundTrip` | pkg/authz/model_json.go:118-259 | Every accepted document is printed back unchanged |
| `ModelDocs.RewriteRoundTrip` | pkg/authz/model_json.go:140-251 | Every accepted rewrite is printed back unchanged |
| `ModelDocs.PrintedModelParsesIff` | pkg/authz/model_json.go:118-259 | A printed model is accepted exactly when its names are non-empty and every acting tuple-to-userset names the relation it computes |
| `ModelDocs.ReparsedModelRunsAlike` | pkg/authz/model_json.go:140-259 | Printing and reparsing a model, even with several operators set per rewrite, leaves every run of Check as it was on every store |
| `DocMeaning.DocumentDecides` | pkg/authz/model_json.go:118-215 | Under a parsed document a node is settled for a user exactly as the document itself says, operator by operator, over the settled nodes, exclusion included |
| `ModelDocs.ParseRewrite` | pkg/authz/model_json.go:140-203 | Accepts exactly one operator per rewrite and its well-formed children |
| `ModelDocs.ParseRewrites` | pkg/authz/model_json.go:205-215 | The slice loop parses every child or fails |
| `ModelDocs.ParseNamespace` | pkg/authz/model_json.go:118-138 | The relation loop accepts exactly named, well-formed rules, in any order |
| `ModelDocs.ParseModel` | pkg/authz/model_json.go:118-138 | The namespace loop parses the whole document or fails |
| `ModelDocs.PrintRewrite` | pkg/authz/model_json.go:230-251 | Prints the operator an evaluation acts on |
| `ModelDocs.PrintRewrites` | pkg/authz/model_json.go:253-259 | The slice loop prints every child in order |
| `ModelDocs.PrintModel` | pkg/authz/model_json.go:218-228 | The map loops print every relation of every namespace |

## Left out

- Soundness.CheckSound: assumes no colon in namespaces and no hash in relations, because the cycle and memo keys are plain joins; `Counterexamples.CollidingKeysGrantTooMuch` shows the assumption is needed and `VisitKeys.VisitKeyUniqueIff` says exactly which keys are ambiguous. The same holds of the other theorems that name `Clean`.
- ExpandMeaning.ExpandPreservesMeaning: read against the store with every condition taken off, because Expand ignores conditions (`Conditions.TreesIgnoreConditions`); where nothing is conditional that is the relation itself (`ExpandMeaning.UnconditionalSettles`).
- MemberMeaning.ResolveIsSound: likewise read with conditions taken off, and for models without exclusions, because member resolution ignores conditions, an excluded everyone at the exclusions `MemberMeaning.SubtractIsExactIff` rules out, and whatever a cut hides under an exclude side; `MemberMeaning.GuardedResolutionIsSound` covers models with exclusions that meet neither.
- CheckSet.CheckSetIsSound: the same hypotheses, since it rests on member resolution, and a shared user is one of the queried set with conditions taken off; `CheckSet.CheckSetFindsShared` asks that the subtractions met be exact.
- MemberMeaning.GuardedResolutionIsSound: one direction over whole runs; a cut under an exclude side may also hide nobody who matters, so only single subtractions have an exact condition.
- Inert.CheckIgnoresIff: leaves out relations that rules walk only under intersections or exclusions, where the rest of the rule may decide every request; `Inert.ComputedOnlyIsInertIff` covers them for Expand.
- MembershipRuns.InvAlways: raw tuple writes to the workspace namespace are outside its runs, because they separate rows from tuples (`MembershipRuns.RawRoleKeepsIff`), and the project uses the default model; interleaving inside one operation is modelled for first calls only (`Convergence.FirstCallsConverge`), crashes between its steps are.
- Shapes.StoredAreWellShaped: callers have a name, because the service takes the caller's identity as given, and raw writes to the workspace namespace are outside its runs, as for `MembershipRuns.InvAlways`.
- Policy.AcceptedIff: depth and reads enough for the chain of grades, which every accepted configuration gives (`Grades.ConfiguredIsAmple`), and requests that no crash cuts; `Policy.OnlyThePermittedAct` asks neither.
- Inheritance.AccessIsInherited: the settled relation; Check agrees with it as `Soundness.CheckFailsClosed` and `Soundness.TopCheckComplete` say.
- ExpandCap.TooLargeIff: without a read budget; `FanOutCut.TopExpandCut` says when a budget runs out first.
- RateLimiter.WindowBound: exact reals instead of floating point, and a clock that never goes back.
- Service.Gateway.EnsurePersonalWorkspace: the method runs alone; the race its second lookup is for is in `Convergence.FirstCallsConverge`, over the same steps.
- MemoryDriver.MemoryStore.ReadShard: one clock instant and one listing order per request, where the driver reads the clock and ranges over its map at every listing; what a node lists is the same set either way, and `Solutions.OrderIrrelevant` says the reference does not see the order.
- The nested per-scope maps of the driver are one record per scope, memberships keyed by a pair; locks are not modelled, every repository step is atomic.
- Errors of the tuple reader other than the read budget; the backstop metrics.
- Condition bodies: a request context is the set of conditions its registered functions accept.
- Strings are sequences of characters; byte lengths of multi-byte characters in key parts are not distinguished from character counts.
- Timestamps of rows, display names (only whether one was given) and slugs, random ids, token hashing (a hash is an opaque string), role strings outside the four roles.
- Project and region resolution: a call is told whether its project is active and served here, and which model it has.
- Groups and enrollments: the same row-and-tuple pattern as memberships; only easier members.
- Cross-relation reference validation of model documents and the JSON text itself.
- The text encoding of consistency tokens (a token is blank, undecodable, or its decoded contents), data export, batch checks, list endpoints, audit and decision logs.
- The Postgres driver: it rests on SQL semantics that are not part of the repository.
