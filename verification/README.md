# State machine engine: the managed child lifecycle

A machine definition is a statechart: flat, or with parallel regions and joins. An entity is a running
instance. A state can be a managed compound state: while an entity is in it, a child instance of another
machine runs, and its completion moves the parent on. Events, timers and creations are serialized
transactions over one table of entities and one append-only history.

This project models that write path and proves what holds in every store that any sequence of requests can
reach: the instance tree, the history, the timers, the delivery of events and the commit's event list.

## How it is organised

| file | content |
|---|---|
| `Names`, `Models` | ordered names; definitions, entities, instances, the registry |
| `Engine` | evaluation, joins, region entries, timers, as functions |
| `EngineSteps` | the engine's loops as methods, proved to compute those functions |
| `Store`, `Lifecycle`, `Requests` | one transaction and its steps as functions: row writes; cancel, start, write and completion; events, targeted delivery, creation, timers, runs |
| `Transactions` | the same operations on a mutable transaction object, each proved to compute its function |
| `Services` | the requests and the scheduler's tick over one mutable database |
| `Validation`, `Nesting`, `Registration`, `Acceptance` | what registration checks, keeps over any operations, and buys at run time |
| `StartPlans`, `Refusals` | when a start, a write, a request succeeds: exact conditions |
| `Ledger`, `WriteProofs`, `LedgerProofs` | the history invariant and its preservation |
| `Tree`, `CancelProofs`, `StartProofs`, `TreeProofs`, `CascadeProofs` | the tree invariant and its preservation through cascades |
| `CancelRows`, `CommitLog`, `EventOrder`, `Growth` | order of cancellations, the event list and its order, what only grows |
| `Writes`, `Runs`, `Guarantees`, `Delivery`, `Routing`, `Timers` | the main theorems |
| `Gaps` | definitions and runs on which the code falls short of what it sets out to do |

The write path is mutually recursive and breaks the tree invariant in the middle of a cascade. The proofs
name the open place (a `hole` in `Tree.TreeOk`, the regions still to visit in `TreeProofs.MidTree`, the child
still to be cited in `Ledger.LedgerOk`), show how each step moves it, and show that it is closed at commit.
No proof uses that child ids are distinct: they are not (`EngineSteps.ChildIdsCollide`).

A run (`Requests.IsRun`) is a sequence of served requests: each with its answer and the store it left, the first
on an empty database. The main theorems hold at every point of every run.

Functions carry the specification of the mutable operations, because the invariants are statements about
them. A method's `ensures` names the function; the function's meaning is the lemmas about it. The theorems
read definitions, rows and entities directly: `EngineSteps.Takes`, `Meets`, `SendsTo`, `DeclaresChild` and `Begins`
say in terms of a definition's own fields what the engine's functions are to compute.

## Four things the code does not do

- The timer query misses parallel machines whose only region is named `_`: such an entity is stored like a flat
  one, and the state predicate for a parallel machine (`src/routes/entities.rs:183-190`, used at
  `src/scheduler.rs:170-174`) matches objects only. `Timers.PrefilterAgrees` gives the exact condition,
  `Services.StoredAsFlatUnseen` shows that no entity of such a machine is ever selected, and
  `Gaps.ReadyTimerUnseen` gives a valid definition and runs whose timer is ready and never selected.
- A managed child whose initial states already complete it is started active, and its parent is not moved on.
  `Guarantees.NoMissedCompletion`: a parent waits on a finished child exactly when the child's reference accepts
  its machine's initial states and the child has not been written since its start. `Guarantees.NoneWaits` and
  `Guarantees.StartedWaits` say what that means for a definition and for a commit, `Guarantees.WaitsUntilWritten`
  how long it lasts; `Gaps.ParentWaits` gives valid definitions and runs where it happens.
- `validate_flat` accepts a flat machine with joins, on which events fire joins and timers do not. `Gaps.FlatJoins`:
  the two agree along a transition exactly when no join is ready after it; `Gaps.FlatJoinsDiffer` is a valid
  definition on which they do not. The run theorems exclude such definitions, and those with legacy compound states,
  which are not modelled; `Validation.ValidIsWellFormed` shows that they exclude no other valid definition.
- Registration checks a definition against those registered at that moment only, as documented. Cycles never get in
  that way (`Registration.NeverCyclic`), but a chain completed later can be too deep (`Gaps.ChainTooDeep`,
  `Gaps.DeepRootRefused`), or a rule not fit a child registered later (`Registration.OnlyDepthOrRules`).
  A check made once everything is there holds for good (`Registration.CompleteStays`), and registering children
  before parents needs no second check (`Registration.ChildrenFirstAccepted`).

## Model

| member | source | states |
|---|---|---|
| Runs.ReachableConsistent | src/transition_core.rs:605-728 | every store that any sequence of creations, events, targeted events and timers reaches satisfies the tree and the history invariant |
| Guarantees.TreeInvariant | src/transition_core.rs:734-883 | a live entity is in a state to which its definition gives a managed child if and only if the entity of that machine with id `<parent>::sub::<state>` is active and its last step is exactly that machine, entity, region, state and entry; the path of every managed instance, ended ones included, is its parent's path plus its step, as long as its depth, at most 8 |
| Guarantees.NeverReentered | src/transition_core.rs:784-825 | two live entities, at any two points of a run, that are in managed states with the same child key are the same entity in the same entry of the same region and state: no managed state is entered twice, and no two parents share a child key |
| Refusals.ReentryRefused | src/transition_core.rs:808-825 | a ready write that enters a managed state whose child key is taken, and does not end its own instance, is refused, on an accepted tree with an instance conflict |
| Runs.TreeIsolation | src/transition_core.rs:747-825 | an event or timer changes only entities whose root is the root of the addressed entity, each at most once, although child ids collide; a creation changes no existing entity |
| Runs.CreationAdds | src/transition_core.rs:270-327 | a committed creation adds the root with every region in its own initial state since the clock's time, version 1 and the given context, and active instances, and changes no other entity; told to ignore an existing root, it changes nothing |
| Guarantees.NewInstancesBegin | src/transition_core.rs:843-883 | every instance that any commit starts, at whatever depth, is active at version 1 with no context and every region in its own initial state since the clock's time |
| Runs.OnlyTopmostStarts | src/transition_core.rs:698-728 | of the existing entities a commit changes, one stays live and its path is a prefix of every other's; all others end. The parent of every instance the commit starts is that one or is itself new |
| Runs.OnlyStartsRefuse | src/transition_core.rs:655-661 | a refusal is one of the request's own reasons or that of a child's start: no cascade meets a version or identity conflict, an ended instance or an inconsistency |
| Runs.RefusalsExact | src/transition_core.rs:412-450 | an absent entity, an ended one, a target path that is not current, an existing root and a clash at a target are reported if and only if they are so in the store before the request |
| Runs.StepSettles | src/transition_core.rs:88-327 | each kind of request, on a store that satisfies the invariants, commits a store that satisfies them and touches one tree, changes nothing, or is refused for one of its own reasons |
| Requests.RunIsRun | src/transition_core.rs:98-115 | every sequence of requests has a run in which each is served on the store the one before it left |
| Writes.RequestWrites | src/transition_core.rs:88-265 | every event, targeted event or timer that commits or is refused past its own checks is exactly one ready write, with its cascade, of one live entity in the addressed entity's tree |
| Writes.TransitionHandled | src/transition_core.rs:412-537 | the outcome of an event is that of the handler's write: the addressed entity, or one below it if it has no transition of its own |
| CascadeProofs.WriteEntityTree | src/transition_core.rs:605-728 | one write with its whole upward cascade sets the entity's states, context, version and times as asked, restores the tree and history invariants, touches one tree once, changes no other entity's context, and fails only by a start |
| CascadeProofs.CompleteParentTree | src/transition_core.rs:988-1059 | the advance of a parent by a child that just completed moves it from the compound state to the target and along its joins, changes no context anywhere, and restores the invariants; its inconsistency errors are unreachable |
| Growth.AdvanceRecorded | src/transition_core.rs:1003-1034 | and appends first the parent's row: from the compound state to the target, with the child, its states and its end, the entry left and what started the transaction as cause |
| CascadeProofs.WriteOwnWorks | src/transition_core.rs:611-688 | the rows and the guarded update of a write never conflict |
| CascadeProofs.TouchedCompose | src/transition_core.rs:712-728 | a child's write and its parent's advance write no entity twice |
| CancelProofs.CancelSubtreeExact | src/transition_core.rs:888-982 | cancelling never fails, and leaves every active instance with the child on its path cancelled and every other entity as it was, although the search follows current states only |
| CancelRows.SubtreeCancellation | src/transition_core.rs:921-980 | cancelling cannot fail and appends exactly one `$sub_cancel` row for each instance it cancels, no other row, descendants' rows before their ancestors'; the instance's own row comes last with the given reason, the others say that an ancestor was cancelled, all name the same causing row and have no params, no region, the trigger's timestamp and the clock's time |
| CancelRows.ConsistentSubtree | src/transition_core.rs:888-919 | in every committed store an active instance's subtree is as cancellation needs it |
| StartProofs.StartChildTree | src/transition_core.rs:787-883 | a start adds a whole new subtree in which every managed initial state has its child, changes nothing else, and fails only with its four refusals |
| TreeProofs.ApplyChildLifecycleTree | src/transition_core.rs:734-781 | visiting the regions of a written entity restores the tree region by region and changes nothing outside the visited regions |
| Lifecycle.ChildIsDeeper | src/transition_core.rs:906-919 | descending to a child strictly shrinks the set of keys that can still be visited: cancellation and forwarding terminate even on cyclic definitions |
| Lifecycle.OwnWriteEnds | src/transition_core.rs:652-690 | a completing write strictly shrinks the set of active instances: the upward cascade terminates |
| Growth.EntriesNeverReturn | src/engine.rs:230-264 | over any run an entity's version never falls, an ended instance never changes again, and a region is either still in the very same entry or in one that began after |
| Growth.CommitLogTrue | src/transition_core.rs:848-874 | each event of a commit names an instance at its real place, the row that ended it, and for a completion the parent's row that cites it |
| Growth.WriteEntityGrows | src/transition_core.rs:618-648 | a write appends its own row first, then one row for each fired join, numbered and naming the row that caused it, and only appends; it keeps every entity's entries, its events are true, and whatever it creates is created at the clock's time |
| CommitLog.CommitLogExact | src/transition_core.rs:862-1057 | a commit's events are exactly the instances that are started, completed and cancelled between the stores before and after |
| CommitLog.CommitEventsDistinct | src/transition_core.rs:968-1057 | no instance has two events in one commit, so none both starts and ends in it |
| CommitLog.LogIsDifference | src/transition_core.rs:862-980 | replaying an event list over instance statuses accounts for every change |
| EventOrder.EventsBottomUp | src/transition_core.rs:1036-1051 | of two instances that end in one commit, a descendant's event comes before its ancestor's, over cancellations and completions alike |
| EventOrder.ReasonsAreTrue | src/transition_core.rs:747-781 | a cancellation's reason is what became of the parent in the same commit: it left the state and lives on, it completed, or it was cancelled itself; its row cites the earlier row of the write above it that caused it |
| Guarantees.HistoryReplay | src/transition_core.rs:611-688 | folding an entity's rows in id order over its initial states gives its current states, and its version is one more than its rows that are not joins |
| Guarantees.IdentitiesUnique | src/engine.rs:107-134 | no two rows of one entity ever share an identity key |
| Guarantees.RowsStartFromReplay | src/transition_core.rs:618-648 | a row that is not a join starts from the state in which the entity's earlier rows left its region, and a cancellation from all of its states |
| Guarantees.EntriesNameTheirRow | src/models.rs:518-522 | a region's entry made by a transition names the entity's history row, a join's row included, that entered exactly this region and state |
| Guarantees.NoMissedCompletion | src/models.rs:91-105 | an active child satisfies a completion rule of its parent link if and only if it is at version 1 and the rules accept its machine's initial states |
| Guarantees.NoneWaits | src/models.rs:91-105 | if no managed reference accepts its child's initial states, no parent ever waits on a finished child |
| Guarantees.StartedWaits | src/transition_core.rs:827-883 | a started child is active, and finished already if and only if its reference accepts its initial states |
| Guarantees.WaitsUntilWritten | src/transition_core.rs:664-728 | a parent that waits on a finished child waits at a later point of the run if and only if nothing has written the child since |
| Gaps.ParentWaits | src/transition_core.rs:827-883 | valid definitions, and every run that begins with a creation of theirs, where a parent waits on a finished child until the child is written |
| Guarantees.CompletionProvenance | src/transition_core.rs:1016-1057 | a managed child is completed if and only if its parent's history has a `$sub_complete` row keyed by its link that cites its end. That row leads from the compound state to `on_final` of the state in which the child ended, if the child is flat and has one, and else to the target of the first rule all of whose conditions those states meet |
| Guarantees.CitationsAscend | src/transition_core.rs:664-672 | that row is the only one with its key, is later than the cited end, which is a row of the child, and not later than the parent's own end |
| Guarantees.EventsAtMostOnce | src/transition_core.rs:421-436 | once an entity recorded an external event, submitting it again after any other requests leaves the store unchanged: a duplicate for equal params, refused for different ones, even after the instance ended |
| Guarantees.TargetedAtMostOnce | src/transition_core.rs:182-198 | the same for any target path that resolves to the entity |
| Guarantees.DedupAfterRecord | src/transition_core.rs:355-380 | after a record, the row scan's answer depends only on whether the params equal the recorded ones |
| Guarantees.TimerFires | src/scheduler.rs:231-316 | a timer step that changes the store fires the current entry of a live entity in the `from` state, at or after its due time kept within 64 bits; the commit's first row is the timeout's, with the entry, when it began and when it was due, then come its joins'; the entity moves along the transition and, if parallel, the joins, and no context changes |
| Guarantees.ReadyTimerFires | src/scheduler.rs:256-316 | a ready timer fires unless a start refuses it |
| Guarantees.TimeoutsAtMostOnce | src/scheduler.rs:85-136 | under any interleaving an entity has at most one `$timeout` row per region entry, at or after the due time recorded in it |
| Routing.EventHandled | src/transition_core.rs:412-537 | a committed event was handled by one live entity that had no row for it, by the first of its transitions whose event, source state and guard, tested on the params and its context, fit: the addressed entity, or one below it if that has no such transition, and a targeted event by its target. The commit's first rows record it and each fired join; the handler ends up in the target and along joins all of whose conditions were met, exactly in the target if none were met, with the params merged into its context, and no other context changes |
| Routing.EventDecided | src/transition_core.rs:412-537 | the whole answer, told from the store: absent, repeated with equal params, recorded with others, ended, handled by the entity itself if one of its transitions takes the event, and else left to its children |
| Routing.ForwardedInOrder | src/transition_core.rs:1216-1245 | a parallel entity offers the event in the order in which its definition lists the regions: the active child of region `i` takes it, itself or below, and those of the regions before declined; if nobody takes it all declined |
| Routing.ForwardedFlat | src/transition_core.rs:1216-1245 | a flat entity offers it to the child of its state only |
| Routing.ForwardFirst | src/transition_core.rs:1216-1245 | a forwarded event goes to the first compound state in region order whose active child handles it; the children before it answered without handling |
| Routing.UnhandledByAll | src/transition_core.rs:1204-1278 | an event answered as unhandled has no live instance below the addressed entity one of whose transitions fits in event, source state and guard, except below one that had recorded it with equal params |
| Delivery.TargetedDelivery | src/transition_core.rs:152-250 | a target path is accepted if and only if it names the path of the live entity it resolves to |
| Delivery.HopCurrentExact | src/transition_core.rs:207-242 | a hop is current if and only if its parent is live, in the named state and in the named entry; the checks of the child then cannot fail |
| Delivery.ReachedFromRoot | src/transition_core.rs:200-250 | every active instance is at its stored path below its root, and every target that names that path is accepted from the root and ends at the instance |
| Delivery.AcceptedIsLive | src/transition_core.rs:207-250 | an accepted target is live and its path is the start's path plus the resolved steps with their current entries |
| Delivery.LiveIsAccepted | src/transition_core.rs:152-250 | naming the steps of any live descendant is accepted and resolves to it |
| Timers.MixedWriterTimers | src/engine.rs:179-264 | under any interleaving of engine writes, cancellations and writers that bump versions without entries, the effective entry time is never before the true one and equals it unless only an upper bound is claimed |
| Timers.EngineEntry | src/engine.rs:230-264 | an engine write gives exactly the regions it enters a new entry and leaves every other region's entry as it was |
| Timers.RowEntry | src/engine.rs:197-217 | without a current document an entry is the creation if nothing has written the row since, and else its last write, exact for a flat row and an upper bound for a parallel one |
| Timers.PrefilterAgrees | src/scheduler.rs:163-207 | on one snapshot the timer query selects an entity if and only if its timer is ready and its machine is not a parallel one stored as flat |
| Services.StoredAsFlatUnseen | src/scheduler.rs:163-207 | in every committed store the query selects no entity of a parallel machine stored as flat, whatever the cutoff |
| Gaps.ReadyTimerUnseen | src/routes/entities.rs:183-190 | a valid definition with a timer, and every run that begins with a creation of it: the timer stays ready as long as the entity is not written, and the query selects nothing at any point and cutoff |
| Services.Service.Tick | src/scheduler.rs:55-141 | with any requests in between, the tick submits only timers of registered machines that are not stored as flat, each for the whole seconds of its own guard; one that fires does so when the region has been in `from` for that time; its counts are those of its own steps; and every entity that had been in `from` for that time when it began has left that entry, or its own attempt failed |
| Services.Service.FireDue | src/scheduler.rs:85-136 | the same for one `$timeout` transition, the seconds of its guard and its stale candidate list |
| Services.Service.FireTimeout | src/scheduler.rs:217-316 | re-checks a candidate and commits, or leaves the store alone, exactly as the timer step |
| Services.Service.ExecuteTransition | src/transition_core.rs:88-115 | commits exactly what the event step specifies, or nothing, and answers with the commit's events |
| Services.Service.ExecuteTargeted | src/transition_core.rs:125-265 | the same for a targeted event |
| Services.Service.CreateEntity | src/transition_core.rs:270-327 | the same for the creation of a root, which can be told to ignore an existing one |
| Services.QueryFindsDue | src/scheduler.rs:163-207 | the query misses no timer that was due at an earlier moment and whose entry has not ended since |
| Services.AttemptEnds | src/scheduler.rs:217-316 | an attempt that does not fail leaves no due timer in its entry |
| Acceptance.AcceptedRequests | src/routes/machines.rs:216-252 | on the trees of an accepted root definition with all references registered, no request is ever refused for a missing machine, a rule or the depth: a start can only meet an instance conflict |
| Nesting.CheckManagedNesting | src/routes/machines.rs:216-252 | the stack search terminates and accepts if and only if no chain of managed references repeats a machine or has more than 8 edges and every reached rule fits its child |
| Nesting.GoodIffAcceptable | src/routes/machines.rs:224-250 | the search decides a statement about all reference chains |
| Nesting.PushRefs | src/routes/machines.rs:224-249 | one machine's references: refuses a bad one, pushes the registered ones |
| Nesting.AcceptedStarts | src/transition_core.rs:787-825 | below an accepted root a start fails only with an instance conflict |
| StartPlans.StartExact | src/transition_core.rs:787-883 | below an accepted root a start succeeds if and only if the keys of the subtree, read off the definitions, are distinct and not taken; it then creates exactly those |
| StartPlans.WriteExact | src/transition_core.rs:605-728 | on an accepted tree a ready write with its cascade succeeds if and only if the keys that the topmost write of the cascade would create fit in the same sense; it then creates exactly those |
| Refusals.CreationExact | src/transition_core.rs:270-327 | the same for the creation of an accepted root and its whole tree |
| Refusals.RequestExact | src/transition_core.rs:88-265 | on an accepted tree a request is refused for its own reason, idle, or one ready write of that tree which succeeds or meets an instance conflict exactly by its plan |
| Refusals.EventExact | src/transition_core.rs:412-537 | an event that the addressed entity handles itself succeeds if and only if the plan of its write fits |
| Refusals.TimerExact | src/scheduler.rs:231-316 | a ready timer fires if and only if the plan of its write fits |
| Nesting.LivePath | src/transition_core.rs:827-841 | a live entity's path follows managed references from its root's machine |
| Nesting.ManagedSubIsRef | src/models.rs:228-243 | every managed compound state is among the definition's references |
| Validation.Validate | src/models.rs:215-225 | accepts if and only if the definition is valid |
| Validation.ValidateParallel | src/models.rs:319-419 | accepts if and only if regions are named, distinct and closed, managed states are in one region only, and transitions and joins name declared states |
| Validation.ValidateFlat | src/models.rs:264-317 | accepts if and only if the initial state, transitions, action states and sub-machines name declared states and no legacy compound is initial |
| Validation.ValidIsWellFormed | src/models.rs:215-225 | a valid definition is what the model relies on if and only if all its sub-machines are managed and it is parallel or has no joins |
| Validation.SiblingsDistinct | src/models.rs:359-367 | in a valid definition two managed states of one entity never name the same child |
| Validation.BeginsDeclared | src/models.rs:264-419 | in a valid definition an entity begins in declared states |
| Validation.MovesDeclared | src/models.rs:264-419 | and a transition with its joins leads to declared states again |
| Validation.AdvancesDeclared | src/models.rs:264-419 | and so does a child's completion, in whatever states it ends |
| Registration.NeverCyclic | src/routes/machines.rs:212-252 | after any sequence of registrations, replacements and removals no chain of managed references returns to its start, although every check sees the definitions of its moment only |
| Registration.OnlyDepthOrRules | src/routes/machines.rs:212-252 | a registered definition would be accepted again if and only if its chains are short enough and their rules fit |
| Registration.CompleteStays | src/routes/machines.rs:212-252 | a definition accepted when everything it reaches is registered stays so, whatever is registered after it |
| Registration.ChildrenFirstAccepted | src/routes/machines.rs:11-55 | if each definition is registered after those it refers to, every root is accepted, so its requests meet no refusal but their own and instance conflicts |
| Gaps.ChainTooDeep | src/routes/machines.rs:224-249 | a sequence of registrations, all accepted, after which the first definition is not acceptable |
| Gaps.RungsShallow | src/routes/machines.rs:224-249 | with 8 levels or fewer the same chain is acceptable |
| Gaps.DeepRootRefused | src/transition_core.rs:800-807 | no root of such a definition can be created, on an empty store for the depth |
| Registration.Definitions.CreateMachine | src/routes/machines.rs:11-55 | registers exactly if valid, acceptable and new, and keeps references free of cycles |
| Registration.Definitions.UpdateMachine | src/routes/machines.rs:94-132 | replaces exactly if present, valid and acceptable, and keeps references free of cycles |
| Registration.Definitions.DeleteMachine | src/routes/machines.rs:135-176 | removes exactly if present and not in use, and keeps references free of cycles |
| EngineSteps.EvaluateEvent | src/engine.rs:18-45 | finds the first transition in definition order whose event and source state fit and which has no guard or one that holds of params and context, or none does |
| EngineSteps.ApplyJoins | src/engine.rs:86-105 | fires joins in passes and enters their targets in order |
| EngineSteps.PassExact | src/engine.rs:49-82 | a pass fires into a target if and only if some join has every one of its regions in the required state on the snapshot, and its target region elsewhere |
| EngineSteps.PassInOrder | src/engine.rs:49-82 | in definition order, each join once |
| EngineSteps.LastTargetCounts | src/engine.rs:86-105 | of several targets in one region the last one counts, and no other region moves |
| EngineSteps.CascadeIsExplained | src/engine.rs:86-105 | every join of a cascade had all its conditions met by the states that earlier ones left; none is left at the end unless the passes ran out; and none fires if none has its conditions met at first |
| EngineSteps.CascadeSettles | src/engine.rs:86-105 | from any states the cascade ends with no join ready, if no two joins enter one region in different states and there are no more joins than passes |
| EngineSteps.ChainSettles | src/engine.rs:86-105 | the bound on the number of joins is tight: a chain of joins settles if and only if it is no longer than the number of passes, which is 10 for a write |
| EngineSteps.CascadeMayNotSettle | src/engine.rs:86-105 | agreement is needed: two joins that undo each other fire once in every pass, and the bound is what ends them |
| Gaps.FlatJoins | src/scheduler.rs:256-265 | on a flat machine a timer fires no join; it agrees with an event along the same transition if and only if no join is ready after it |
| Gaps.FlatJoinsDiffer | src/models.rs:264-317 | a valid flat definition on which the two end in different states |
| EngineSteps.AdvanceRegionEntries | src/engine.rs:230-264 | computes the entries after a write, the last entry of a cascade winning |
| EngineSteps.FindLastEntered | src/engine.rs:238-240 | finds the last entry of a region, or there is none |
| EngineSteps.FirstSatisfiedIsFirst | src/models.rs:96-105 | completion picks the target of the first rule that holds |
| EngineSteps.CompletionSends | src/models.rs:91-105 | a completed child sends its parent to `on_final` of its state if it is flat and has one, and else to the target of the first rule all of whose conditions it meets; to nowhere otherwise |
| EngineSteps.ManagedSubIsDeclared | src/models.rs:227-233 | the managed child of a state is the one the definition gives to that state of that region |
| EngineSteps.InitialStatesBegin | src/models.rs:200-212 | an entity begins with every region in that region's own initial state |
| EngineSteps.RuleFitsMeans | src/models.rs:108-133 | a rule fits if and only if its conditions are on all regions of the child and no others, each on a state of that region |
| EngineSteps.FittingRuleIsOneState | src/models.rs:108-133 | a rule that fits is met by exactly one of the child's state maps |
| EngineSteps.AdvancedEntryIs | src/engine.rs:230-264 | a region's next entry is made by the last step into it; without one it keeps its entry if its state is the same |
| EngineSteps.CheckRulesAgainst | src/models.rs:108-133 | accepts if and only if each rule's conditions are on all the child machine's regions and no others, each on a declared state |
| EngineSteps.ChildIdsCollide | src/engine.rs:137-139 | two different entities in different states can name the same child |
| EngineSteps.ChildIdsOfOneParent | src/engine.rs:137-139 | states of one entity name different children |
| Names.LeIsLexicographic | src/transition_core.rs:312-317 | regions are visited in lexicographic order of their names |
| Models.EncodeRoundTrip | src/models.rs:536-571 | the state column gives back the state map and is plain exactly for the default region alone |
| Models.TextRoundTrip | src/models.rs:536-571 | as text it gives back the state map if and only if it is not a single plain state that starts with a brace and parses as another map |
| Models.EventNamesDistinct | src/engine.rs:112-114 | an external event with one of the engine's four names has the type of the engine's own rows, and no name is lost |
| Transactions.Transaction.InsertHistory | src/transition_core.rs:1078-1116 | appends the row and returns its id, or refuses a taken identity |
| Transactions.Transaction.InsertJoinRows | src/transition_core.rs:1120-1161 | appends a row per join in order and returns what each entered |
| Transactions.Transaction.UpdateEntity | src/transition_core.rs:1166-1197 | writes the entity if and only if it is at the expected version |
| Transactions.Transaction.CancelSubtree | src/transition_core.rs:888-982 | the new transaction state is the specified cancellation |
| Transactions.Transaction.StartChild | src/transition_core.rs:787-883 | the new transaction state is the specified start |
| Transactions.Transaction.ApplyChildLifecycle | src/transition_core.rs:734-781 | the new transaction state is the specified lifecycle |
| Transactions.Transaction.WriteOwn | src/transition_core.rs:611-688 | the new transaction state is the specified own write |
| Transactions.Transaction.WriteEntity | src/transition_core.rs:605-728 | the new transaction state is the specified write and cascade |
| Transactions.Transaction.CompleteParent | src/transition_core.rs:988-1059 | the new transaction state is the specified advance, with the parent's row filled in |
| Transactions.Transaction.Dedup | src/transition_core.rs:355-380 | a duplicate if some row has equal params, else a clash if some row has the key |
| Transactions.Transaction.TransitionInTx | src/transition_core.rs:412-537 | the specified outcome; an answer without a write leaves the transaction as it was |
| Transactions.Transaction.TrySubMachineForward | src/transition_core.rs:1204-1278 | the specified outcome of trying the active managed children |
| Transactions.Transaction.ResolveHops | src/transition_core.rs:151-177 | the hops of a target path, from definitions alone |
| Transactions.Transaction.ExecuteTargeted | src/transition_core.rs:139-256 | the specified outcome of targeted delivery |
| Transactions.Transaction.CreateRoot | src/transition_core.rs:270-327 | the specified new root with its children, or none if told to ignore an existing one |

## Left out

- Legacy (lazily created) children, `auto_advance_parent` and `correlate_child_final`: they start without their own managed initial states, so the tree invariant does not hold for them, and forwarding through them is not bounded.
- Transactions.Transaction.TransitionInTx: does not try a legacy child, because those are left out. Registries with one are excluded from every run theorem by `Models.WellFormed`.
- Transactions.Transaction.TrySubMachineForward: passes over a legacy compound state in the same way.
- Replacing or removing a definition that has entities, deleting entities, the definition cache: in a run the registry is fixed. `Registration` treats the operations on definitions by themselves; whether a machine is in use is a parameter there.
- Definitions are assumed valid, all sub-machines managed and flat ones without joins (`Models.WellFormed`); outside `Models.TextRoundTrip` state names do not start with `{`; stored documents decode. State columns, entries and instances are values, not JSON text.
- Guard operators: a guard is an arbitrary test of params and context, except that a `timeout_seconds` guard never passes in evaluation. Context values are strings, as event params are.
- Actions, webhooks, dispatch, ingest tokens, HTTP, tenants and the response's labels. Answers keep the error and the commit's event list.
- SQL and locking: a request is one serialized transaction that commits or leaves the store as it was. A row's id is its position in the history plus one; gaps after rollbacks are not modelled.
- Clock: one reading per transaction, any value; the tick's own time is separate. Durations are whole seconds times 1000 in unbounded integers; the saturating addition of a due time is modelled, other overflow is not, and the statements about the timer query assume the due time does not overflow.
- Candidates of a timer query are tried in id order; SQL leaves the order open. A failing query is not modelled.
- Iteration over a definition's maps of sub-machines is in name order; the code's iteration order is unspecified.
- `has_managed_initial`: creation always takes the path that starts children, which writes the same row when there are none.
- Writers that do not maintain entries appear only in `Timers`, on one entity: they cannot appear in runs, where they would break replay.
- Replaying an event at a parent after a child handled it is not claimed to be a no-op: a sibling may take it. Replay is stated at the entity that recorded the row.
- The path of an instance is kept as the parent's path and the last step, because it is never empty.
