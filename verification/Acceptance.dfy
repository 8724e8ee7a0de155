/** What acceptance of a definition means for the requests on its trees: none of them is ever refused
    for a missing machine, a completion rule or the nesting depth. */
module Acceptance {
  import opened Names
  import opened Models
  import opened Engine
  import opened Store
  import opened Lifecycle
  import opened Ledger
  import opened Tree
  import opened CascadeProofs
  import opened Requests
  import opened Delivery
  import opened Writes
  import opened Runs
  import opened Nesting

  /** The nesting check accepts the root's definition, and everything it reaches is registered. */
  ghost predicate AcceptedRoot(reg: Registry, root: string) {
    WellFormedRegistry(reg) && root in reg && Acceptable(reg, reg[root]) && AllRegistered(reg, reg[root])
  }

  ghost predicate Registered(reg: Registry, keys: set<Key>) {
    forall k :: k in keys ==> k.machine in reg
  }

  // ---------------------------------------------------------------- one written entity

  lemma {:induction false} CancelSubtreeRefusal(
    reg: Registry, tx: Tx, trig: Trigger, key: Key, reason: CancelReason, cancelledBy: RowRef)
    requires Registered(reg, tx.entities.Keys)
    ensures var r := CancelSubtree(reg, tx, trig, key, reason, cancelledBy); r.Err? ==> r.error == Conflict
    decreases KeysFrom(tx.entities.Keys, key.id), 1, 0
  {
    if key in tx.entities && tx.entities[key].IsActiveChild() {
      var states := tx.entities[key].states;
      CancelChildrenRefusal(reg, tx, trig, key, reg[key.machine], states, SortedKeys(states.Keys), cancelledBy);
    }
  }

  lemma {:induction false} CancelChildrenRefusal(
    reg: Registry, tx: Tx, trig: Trigger, key: Key, machine: Machine, states: StateMap, regions: seq<string>,
    cancelledBy: RowRef)
    requires Registered(reg, tx.entities.Keys) && key in tx.entities
    requires forall r :: r in regions ==> r in states
    ensures var r := CancelChildren(reg, tx, trig, key, machine, states, regions, cancelledBy);
            r.Err? ==> r.error == Conflict
    decreases KeysFrom(tx.entities.Keys, key.id), 0, |regions|
  {
    if regions != [] {
      var state := states[regions[0]];
      match machine.ManagedSub(regions[0], state)
      case None =>
        CancelChildrenRefusal(reg, tx, trig, key, machine, states, regions[1..], cancelledBy);
      case Some(sub) =>
        ChildIsDeeper(tx.entities.Keys, key, state);
        CancelSubtreeRefusal(reg, tx, trig, ChildKey(sub, key.id, state), AncestorCancelled, cancelledBy);
        var tx1 := CancelSubtree(reg, tx, trig, ChildKey(sub, key.id, state), AncestorCancelled, cancelledBy);
        if tx1.Ok? {
          CancelChildrenRefusal(reg, tx1.value, trig, key, machine, states, regions[1..], cancelledBy);
        }
    }
  }

  lemma {:induction false} StartRegisters(
    reg: Registry, tx: Tx, trig: Trigger, parentKey: Key, path: seq<Step>, region: string, state: string, entry: int)
    requires Registered(reg, tx.entities.Keys) && parentKey.machine in reg
    ensures var r := StartChild(reg, tx, trig, parentKey, path, region, state, entry);
            r.Ok? ==> Registered(reg, r.value.entities.Keys)
    decreases MAX_MANAGED_DEPTH + 1 - |path|, 1, 0
  {
    var r := StartChild(reg, tx, trig, parentKey, path, region, state, entry);
    if r.Ok? {
      var sub := reg[parentKey.machine].ManagedSub(region, state).value;
      var link := Step(parentKey.machine, parentKey.id, region, state, entry);
      var childKey := ChildKey(sub, parentKey.id, state);
      var states := reg[sub.machineId].InitialStates();
      var child := NewEntity(states, map[], trig.now, Some(Instance(Active, |path| + 1, path, link, 1, None)));
      var tx1 := tx.(entities := tx.entities[childKey := child],
                     events := tx.events + [Started(childKey, |path| + 1, link)]);
      StartsRegister(reg, tx1, trig, childKey, path + [link], states, SortedKeys(states.Keys));
    }
  }

  lemma {:induction false} StartsRegister(
    reg: Registry, tx: Tx, trig: Trigger, key: Key, path: seq<Step>, states: StateMap, regions: seq<string>)
    requires Registered(reg, tx.entities.Keys) && key.machine in reg
    requires forall r :: r in regions ==> r in states
    ensures var r := StartChildren(reg, tx, trig, key, path, states, regions);
            r.Ok? ==> Registered(reg, r.value.entities.Keys)
    decreases MAX_MANAGED_DEPTH + 1 - |path|, 2, |regions|
  {
    if regions != [] {
      if reg[key.machine].ManagedSub(regions[0], states[regions[0]]).Some? {
        StartRegisters(reg, tx, trig, key, path, regions[0], states[regions[0]], 1);
        var r := StartChild(reg, tx, trig, key, path, regions[0], states[regions[0]], 1);
        if r.Ok? {
          StartsRegister(reg, r.value, trig, key, path, states, regions[1..]);
        }
      } else {
        StartsRegister(reg, tx, trig, key, path, states, regions[1..]);
      }
    }
  }

  /** Under an accepted root, a written entity's lifecycle is refused for a conflict only. */
  ghost predicate ConflictOnly(reg: Registry, r: Result<Tx>) {
    match r
    case Ok(tx) => Registered(reg, tx.entities.Keys)
    case Err(error) => error == Conflict || error == InstanceConflict
  }

  lemma RegionRefusal(
    reg: Registry, root: string, tx: Tx, trig: Trigger, key: Key, path: seq<Step>, before: map<string, RegionEntry>,
    after: map<string, RegionEntry>, region: string, ended: bool, cancelledBy: RowRef)
    requires AcceptedRoot(reg, root) && Registered(reg, tx.entities.Keys)
    requires PathOf(reg, root, path, key.machine) && key.machine in reg && region in after
    ensures ConflictOnly(reg, LifecycleOfRegion(reg, tx, trig, key, path, before, after, region, ended, cancelledBy))
  {
    var tx1 := Ok(tx);
    if EntryChanged(before, after, region) && region in before {
      var reason := if ended then ParentCompleted else ParentExit;
      CancelChildRefusal(reg, tx, trig, key, region, before[region].state, reason, cancelledBy);
      tx1 := CancelChildOf(reg, tx, trig, key, region, before[region].state, reason, cancelledBy);
    } else if !EntryChanged(before, after, region) && ended {
      CancelChildRefusal(reg, tx, trig, key, region, after[region].state, ParentCompleted, cancelledBy);
    }
    if tx1.Ok? && reg[key.machine].ManagedSub(region, after[region].state).Some? {
      AcceptedStarts(reg, root, tx1.value, trig, key, path, region, after[region].state, after[region].entry);
      StartRegisters(reg, tx1.value, trig, key, path, region, after[region].state, after[region].entry);
    }
  }

  lemma CancelChildRefusal(
    reg: Registry, tx: Tx, trig: Trigger, key: Key, region: string, state: string, reason: CancelReason,
    cancelledBy: RowRef)
    requires Registered(reg, tx.entities.Keys) && key.machine in reg
    ensures ConflictOnly(reg, CancelChildOf(reg, tx, trig, key, region, state, reason, cancelledBy))
  {
    match reg[key.machine].ManagedSub(region, state)
    case None =>
    case Some(sub) => CancelSubtreeRefusal(reg, tx, trig, ChildKey(sub, key.id, state), reason, cancelledBy);
  }

  lemma {:induction false} LifecycleRefusal(
    reg: Registry, root: string, tx: Tx, trig: Trigger, key: Key, path: seq<Step>, before: map<string, RegionEntry>,
    after: map<string, RegionEntry>, regions: seq<string>, ended: bool, cancelledBy: RowRef)
    requires AcceptedRoot(reg, root) && Registered(reg, tx.entities.Keys)
    requires PathOf(reg, root, path, key.machine) && key.machine in reg
    requires forall r :: r in regions ==> r in after
    ensures ConflictOnly(reg, ApplyChildLifecycle(reg, tx, trig, key, path, before, after, regions, ended, cancelledBy))
    decreases |regions|
  {
    if regions != [] {
      RegionRefusal(reg, root, tx, trig, key, path, before, after, regions[0], ended, cancelledBy);
      var r := LifecycleOfRegion(reg, tx, trig, key, path, before, after, regions[0], ended, cancelledBy);
      if r.Ok? {
        LifecycleRefusal(reg, root, r.value, trig, key, path, before, after, regions[1..], ended, cancelledBy);
      }
    }
  }

  // ---------------------------------------------------------------- the cascade

  lemma OwnRegistered(reg: Registry, tx: Tx, now: int, key: Key, e: Entity, spec: WriteSpec)
    requires WriteReady(reg, tx, now, key, e, spec)
    ensures key.machine in reg && Registered(reg, tx.entities.Keys)
    ensures PathOf(reg, RootOf(key, e).machine, e.Path(), key.machine)
    ensures var r := WriteOwn(reg, tx, now, key, e, spec); r.Ok? ==> r.value.tx.entities.Keys == tx.entities.Keys
  {
    LivePath(reg, tx.entities, tx.history, Some(Place(key, spec.region)), key);
    forall k | k in tx.entities ensures k.machine in reg {
      assert EntityOkAt(reg, tx.entities, tx.history, k);
    }
    OwnWriteMoves(reg, tx, now, key, e, spec);
  }

  lemma OwnRefusal(reg: Registry, tx: Tx, trig: Trigger, key: Key, e: Entity, spec: WriteSpec, w: OwnWrite)
    requires WriteReady(reg, tx, trig.now, key, e, spec) && AcceptedRoot(reg, RootOf(key, e).machine)
    requires WriteOwn(reg, tx, trig.now, key, e, spec) == Ok(w)
    ensures key.machine in reg
    ensures ConflictOnly(reg,
                         ApplyChildLifecycle(reg, w.tx, trig, key, e.Path(), EffectiveEntries(e), w.entries.regions,
                                                  SortedKeys(w.entries.regions.Keys), w.completion.Some?, w.row))
  {
    OwnRegistered(reg, tx, trig.now, key, e, spec);
    LifecycleRefusal(reg, RootOf(key, e).machine, w.tx, trig, key, e.Path(), EffectiveEntries(e), w.entries.regions,
                     SortedKeys(w.entries.regions.Keys), w.completion.Some?, w.row);
  }

  lemma {:induction false} WriteRefusal(reg: Registry, tx: Tx, trig: Trigger, key: Key, entity: Entity, spec: WriteSpec)
    requires WriteReady(reg, tx, trig.now, key, entity, spec) && AcceptedRoot(reg, RootOf(key, entity).machine)
    ensures var r := WriteEntity(reg, tx, trig, key, entity, spec); r.Err? ==> r.error == InstanceConflict
    decreases ActiveKeys(tx.entities), 0
  {
    OwnWriteEnds(reg, tx, trig.now, key, entity, spec);
    OwnLifecycle(reg, tx, trig, key, entity, spec);
    var w := WriteOwn(reg, tx, trig.now, key, entity, spec).value;
    OwnRefusal(reg, tx, trig, key, entity, spec, w);
    var own := ApplyChildLifecycle(reg, w.tx, trig, key, entity.Path(), EffectiveEntries(entity), w.entries.regions,
                                   SortedKeys(w.entries.regions.Keys), w.completion.Some?, w.row);
    if own.Ok? && w.completion.Some? {
      CompletionAwaits(reg, tx, trig.now, key, entity, spec, own.value, w);
      ParentRefusal(reg, own.value, trig, key, Encode(spec.newStates), w.instance.value, w.completion.value, w.row);
    }
  }

  lemma {:induction false} ParentRefusal(
    reg: Registry, tx: Tx, trig: Trigger, child: Key, childState: Encoded, instance: Instance, target: string,
    end: RowRef)
    requires WellFormedRegistry(reg) && LedgerOk(reg, tx.entities, tx.history, Some(child))
    requires ParentKey(instance.link) in tx.entities
    requires ParentWaits(reg, tx, child, childState, instance, target, end,
                         RootOf(ParentKey(instance.link), tx.entities[ParentKey(instance.link)]))
    requires AcceptedRoot(reg, RootOf(ParentKey(instance.link), tx.entities[ParentKey(instance.link)]).machine)
    ensures var r := CompleteParent(reg, tx, trig, child, childState, instance, target, end);
            r.Err? ==> r.error == InstanceConflict
    decreases ActiveKeys(tx.entities), 1
  {
    var link := instance.link;
    var parent := tx.entities[ParentKey(link)];
    AdvanceReady(reg, tx, trig, child, childState, instance, target, end);
    var tx1 := tx.(events := tx.events + [Finished(child, instance.depth, link, end, target, None)]);
    var cause := AdvanceCause(trig, link, EntryOf(parent, link.region), child, childState, end);
    WriteRefusal(reg, tx1, trig, ParentKey(link), parent,
                 AdvanceSpec(reg[link.machine], parent, link.region, link.state, target, trig.timestamp, cause));
  }

  // ---------------------------------------------------------------- requests

  /** The root machine of the tree a request acts on. */
  function TreeMachine(db: Db, request: Request): string {
    if request.Create? || request.key !in db.entities then request.key.machine
    else RootOf(request.key, db.entities[request.key]).machine
  }

  /** On the tree of an accepted root, the only refusal that a start adds to a request's own is an
      instance conflict. */
  lemma AcceptedStep(reg: Registry, db: Db, request: Request)
    requires WellFormedRegistry(reg) && Consistent(reg, db) && request.key.machine in reg
    requires AcceptedRoot(reg, TreeMachine(db, request))
    ensures var answer := ServeTx(reg, db, request);
            answer.Err? ==> answer.error == InstanceConflict || OwnReason(reg, db, request, answer.error)
  {
    if request.Create? {
      if request.key !in db.entities {
        var states := reg[request.key.machine].InitialStates();
        var e := NewEntity(states, request.context, TriggerOf(request).now, None);
        AcceptedStartsBelow(reg, request.key.machine, Begin(db).(entities := db.entities[request.key := e]),
                            TriggerOf(request),
                            request.key, [], states, SortedKeys(states.Keys));
      }
    } else {
      RequestWrites(reg, db, request);
      var answer := ServeTx(reg, db, request);
      if answer.Err? && !OwnReason(reg, db, request, answer.error) {
        var h, spec :| WriteGives(reg, db, request, h, spec, Err(answer.error));
        WriteRefusal(reg, Begin(db), TriggerOf(request), h, db.entities[h], spec);
      }
    }
  }

  /** On the trees of an accepted root definition whose references are all registered, the only
      refusal that a start can cause is an instance conflict. */
  lemma AcceptedRequests(reg: Registry, run: seq<Served>, n: nat)
    requires WellFormedRegistry(reg) && IsRun(reg, run) && n < |run| && run[n].request.key.machine in reg
    requires AcceptedRoot(reg, TreeMachine(StoreAt(run, n), run[n].request))
    ensures run[n].answer.Err? ==>
              run[n].answer.error == InstanceConflict ||
                  OwnReason(reg, StoreAt(run, n), run[n].request, run[n].answer.error)
  {
    ReachableConsistent(reg, run, n);
    assert ServedAt(reg, run, n);
    AcceptedStep(reg, StoreAt(run, n), run[n].request);
  }
}
