/** The write path and the managed child lifecycle, as functions of the transaction's state. */
module Lifecycle {
  import opened Names
  import opened Models
  import opened Engine
  import opened Store

  // ---------------------------------------------------------------- cancel

  function ChildKey(sub: SubMachine, parentId: string, state: string): Key {
    Key(sub.machineId, ChildEntityId(parentId, state))
  }

  /** Ends `key` and all that is live below it, leaves first. Nothing happens unless `key` is active. */
  function CancelSubtree(
    reg: Registry, tx: Tx, trig: Trigger, key: Key, reason: CancelReason, cancelledBy: RowRef): (r: Result<Tx>)
    ensures r.Ok? ==> r.value.entities.Keys == tx.entities.Keys
    ensures r.Ok? ==> ActiveKeys(r.value.entities) <= ActiveKeys(tx.entities)
    ensures r.Ok? ==> |tx.events| <= |r.value.events|
    decreases KeysFrom(tx.entities.Keys, key.id), 1, 0
  {
    if key !in tx.entities || !tx.entities[key].IsActiveChild() then
      Ok(tx)
    else
      var child := tx.entities[key];
      var machine :- LoadMachine(reg, key.machine);
      var tx1 :- CancelChildren(reg, tx, trig, key, machine, child.states, SortedKeys(child.states.Keys), cancelledBy);
      CancelOne(tx1, trig, key, child, reason, cancelledBy)
  }

  /** The children of the managed states that `states` is in, region by region. */
  function CancelChildren(
    reg: Registry, tx: Tx, trig: Trigger, key: Key, machine: Machine, states: StateMap, regions: seq<string>,
    cancelledBy: RowRef)
    : (r: Result<Tx>)
    requires key in tx.entities
    requires forall r :: r in regions ==> r in states
    ensures r.Ok? ==> r.value.entities.Keys == tx.entities.Keys
    ensures r.Ok? ==> ActiveKeys(r.value.entities) <= ActiveKeys(tx.entities)
    ensures r.Ok? ==> |tx.events| <= |r.value.events|
    decreases KeysFrom(tx.entities.Keys, key.id), 0, |regions|
  {
    if regions == [] then
      Ok(tx)
    else
      var state := states[regions[0]];
      match machine.ManagedSub(regions[0], state)
      case None =>
        CancelChildren(reg, tx, trig, key, machine, states, regions[1..], cancelledBy)
      case Some(sub) =>
        ChildIsDeeper(tx.entities.Keys, key, state);
        var tx1 :- CancelSubtree(reg, tx, trig, ChildKey(sub, key.id, state), AncestorCancelled, cancelledBy);
        CancelChildren(reg, tx1, trig, key, machine, states, regions[1..], cancelledBy)
  }

  lemma ChildIsDeeper(keys: set<Key>, key: Key, state: string)
    requires key in keys
    ensures KeysFrom(keys, ChildEntityId(key.id, state)) < KeysFrom(keys, key.id)
  {
    assert key in KeysFrom(keys, key.id);
  }

  // ---------------------------------------------------------------- start

  /** Adds the instance below a managed state, then those below the states it begins in. Fails if the id
      is taken. */
  function StartChild(
    reg: Registry, tx: Tx, trig: Trigger, parentKey: Key, parentPath: seq<Step>, region: string, state: string,
    entry: int)
    : (r: Result<Tx>)
    requires parentKey.machine in reg
    ensures r.Ok? ==> |tx.events| <= |r.value.events|
    decreases MAX_MANAGED_DEPTH + 1 - |parentPath|, 1, 0
  {
    match reg[parentKey.machine].ManagedSub(region, state)
    case None => Err(Internal)
    case Some(sub) =>
      if |parentPath| + 1 > MAX_MANAGED_DEPTH then
        Err(NestingDepthExceeded)
      else
        var machine :- LoadMachine(reg, sub.machineId);
        if !RulesFit(sub, machine) then
          Err(BadRequest)
        else
          var childKey := ChildKey(sub, parentKey.id, state);
          if childKey in tx.entities then
            Err(InstanceConflict)
          else
            var link := Step(parentKey.machine, parentKey.id, region, state, entry);
            var instance := Instance(Active, |parentPath| + 1, parentPath, link, 1, None);
            var child := NewEntity(machine.InitialStates(), map[], trig.now, Some(instance));
            var tx1 := tx.(
              entities := tx.entities[childKey := child],
              events := tx.events + [Started(childKey, |parentPath| + 1, link)]);
            StartChildren(reg, tx1, trig, childKey, parentPath + [link], machine.InitialStates(),
                          SortedKeys(machine.InitialStates().Keys))
  }

  /** What a new entity begins with below it, all at entry 1. */
  function StartChildren(
    reg: Registry, tx: Tx, trig: Trigger, key: Key, path: seq<Step>, states: StateMap, regions: seq<string>)
    : (r: Result<Tx>)
    requires key.machine in reg
    requires forall r :: r in regions ==> r in states
    ensures r.Ok? ==> |tx.events| <= |r.value.events|
    decreases MAX_MANAGED_DEPTH + 1 - |path|, 2, |regions|
  {
    if regions == [] then
      Ok(tx)
    else if reg[key.machine].ManagedSub(regions[0], states[regions[0]]).Some? then
      var tx1 :- StartChild(reg, tx, trig, key, path, regions[0], states[regions[0]], 1);
      StartChildren(reg, tx1, trig, key, path, states, regions[1..])
    else
      StartChildren(reg, tx, trig, key, path, states, regions[1..])
  }

  // ---------------------------------------------------------------- lifecycle of one written entity

  /** Goes through the regions in order. Where the entry differs, the child below the old state is ended
      and one below the new state is added; once the entity itself is over, nothing is added and every
      live child goes. */
  function ApplyChildLifecycle(
    reg: Registry, tx: Tx, trig: Trigger, key: Key, path: seq<Step>, before: map<string, RegionEntry>,
    after: map<string, RegionEntry>, regions: seq<string>, ended: bool, cancelledBy: RowRef)
    : (r: Result<Tx>)
    requires key.machine in reg
    requires forall r :: r in regions ==> r in after
    ensures r.Ok? ==> |tx.events| <= |r.value.events|
    ensures r.Ok? && ended ==> ActiveKeys(r.value.entities) <= ActiveKeys(tx.entities)
    decreases |regions|
  {
    if regions == [] then
      Ok(tx)
    else
      var tx1 :- LifecycleOfRegion(reg, tx, trig, key, path, before, after, regions[0], ended, cancelledBy);
      ApplyChildLifecycle(reg, tx1, trig, key, path, before, after, regions[1..], ended, cancelledBy)
  }

  predicate EntryChanged(before: map<string, RegionEntry>, after: map<string, RegionEntry>, region: string)
    requires region in after
  {
    region !in before || before[region].entry != after[region].entry
  }

  /** Ends what is live below `state`; does nothing if the state has no managed child. */
  function CancelChildOf(
    reg: Registry, tx: Tx, trig: Trigger, key: Key, region: string, state: string, reason: CancelReason,
    cancelledBy: RowRef)
    : (r: Result<Tx>)
    requires key.machine in reg
    ensures r.Ok? ==> |tx.events| <= |r.value.events|
    ensures r.Ok? ==> ActiveKeys(r.value.entities) <= ActiveKeys(tx.entities)
  {
    match reg[key.machine].ManagedSub(region, state)
    case None => Ok(tx)
    case Some(sub) => CancelSubtree(reg, tx, trig, ChildKey(sub, key.id, state), reason, cancelledBy)
  }

  function LifecycleOfRegion(
    reg: Registry, tx: Tx, trig: Trigger, key: Key, path: seq<Step>, before: map<string, RegionEntry>,
    after: map<string, RegionEntry>, region: string, ended: bool, cancelledBy: RowRef)
    : (r: Result<Tx>)
    requires key.machine in reg
    requires region in after
    ensures r.Ok? ==> |tx.events| <= |r.value.events|
    ensures r.Ok? && ended ==> ActiveKeys(r.value.entities) <= ActiveKeys(tx.entities)
  {
    if EntryChanged(before, after, region) then
      var tx1 :- if region in before then
                   CancelChildOf(reg, tx, trig, key, region, before[region].state,
                                 if ended then ParentCompleted else ParentExit, cancelledBy)
                 else Ok(tx);
      if !ended && reg[key.machine].ManagedSub(region, after[region].state).Some? then
        StartChild(reg, tx1, trig, key, path, region, after[region].state, after[region].entry)
      else
        Ok(tx1)
    else if ended then
      CancelChildOf(reg, tx, trig, key, region, after[region].state, ParentCompleted, cancelledBy)
    else
      Ok(tx)
  }

  // ---------------------------------------------------------------- the write path

  predicate Stored(tx: Tx, key: Key, entity: Entity) {
    key in tx.entities && tx.entities[key] == entity
  }

  lemma OwnWriteEnds(reg: Registry, tx: Tx, now: int, key: Key, entity: Entity, spec: WriteSpec)
    requires Stored(tx, key, entity)
    ensures WriteOwn(reg, tx, now, key, entity, spec).Ok? ==>
              var w := WriteOwn(reg, tx, now, key, entity, spec).value;
              && w.tx.events == tx.events
              && (w.completion.Some? ==>
                    && w.instance.Some?
                    && w.instance.value.status == Completed
                    && ActiveKeys(w.tx.entities) < ActiveKeys(tx.entities))
  {
    var r := WriteOwn(reg, tx, now, key, entity, spec);
    if r.Ok? {
      WriteRowsKeep(tx, key, spec, entity.version + 1, now);
      if r.value.completion.Some? {
        assert key in ActiveKeys(tx.entities);
      }
    }
  }

  lemma WriteRowsKeep(tx: Tx, key: Key, spec: WriteSpec, version: int, now: int)
    ensures var r := InsertWriteRows(tx, key, spec, version, now);
            r.Ok? ==> r.value.0.entities == tx.entities && r.value.0.events == tx.events
  {
    if InsertHistory(tx, MainRow(key, spec, now)).Ok? {
      var tx1 := InsertHistory(tx, MainRow(key, spec, now)).value;
      JoinRowsKeep(tx1, key, spec.joins, 0, version, spec.identity, spec.timestamp, now);
    }
  }

  lemma {:induction false} JoinRowsKeep(
    tx: Tx, key: Key, joins: seq<JoinFired>, step: nat, version: int, cause: Identity, timestamp: int, now: int)
    requires step <= |joins|
    ensures var r := InsertJoinRows(tx, key, joins, step, version, cause, timestamp, now);
            r.Ok? ==> r.value.0.entities == tx.entities && r.value.0.events == tx.events
    decreases |joins| - step
  {
    if step < |joins| {
      var row := JoinRow(key, joins[step], version, step, cause, timestamp, now);
      if InsertHistory(tx, row).Ok? {
        JoinRowsKeep(InsertHistory(tx, row).value, key, joins, step + 1, version, cause, timestamp, now);
      }
    }
  }

  /** The own write, then the children, then, if that ended the instance, the parent in the same way.
      `WriteOwn` and `ApplyChildLifecycle` are the first two steps. */
  function WriteEntity(
    reg: Registry, tx: Tx, trig: Trigger, key: Key, entity: Entity, spec: WriteSpec): (r: Result<(Tx, RowRef)>)
    requires key.machine in reg
    requires Stored(tx, key, entity)
    ensures r.Ok? ==> |tx.events| <= |r.value.0.events|
    decreases ActiveKeys(tx.entities), 0
  {
    OwnWriteEnds(reg, tx, trig.now, key, entity, spec);
    var w :- WriteOwn(reg, tx, trig.now, key, entity, spec);
    var tx1 :- ApplyChildLifecycle(reg, w.tx, trig, key, entity.Path(), EffectiveEntries(entity), w.entries.regions,
                                   SortedKeys(w.entries.regions.Keys), w.completion.Some?, w.row);
    if w.completion.Some? then
      var tx2 :- CompleteParent(reg, tx1, trig, key, Encode(spec.newStates), w.instance.value, w.completion.value,
                                w.row);
      Ok((tx2, w.row))
    else
      Ok((tx1, w.row))
  }

  function AdvanceCause(
    trig: Trigger, link: Step, entry: RegionEntry, child: Key, childState: Encoded, end: RowRef): Cause
  {
    SubCompleteCause(trig.eventType, trig.timestamp, link, entry.basis, entry.origin, child, childState, end)
  }

  /** The upward step of a cascade: the event of `child`, then a write of its parent to `target`.
      `Internal` if the parent has moved on or is over. */
  function CompleteParent(
    reg: Registry, tx: Tx, trig: Trigger, child: Key, childState: Encoded, instance: Instance, target: string,
    end: RowRef)
    : (r: Result<Tx>)
    ensures r.Ok? ==> |tx.events| <= |r.value.events|
    decreases ActiveKeys(tx.entities), 1
  {
    var link := instance.link;
    var parentKey := Key(link.machine, link.entity);
    if parentKey !in tx.entities then
      Err(EntityNotFound)
    else
      var parent := tx.entities[parentKey];
      var machine :- LoadMachine(reg, link.machine);
      if !(link.region in parent.states && EntryOf(parent, link.region).state == link.state &&
         EntryOf(parent, link.region).entry == link.entry) then
        Err(Internal)
      else if !parent.Live() then
        Err(Internal)
      else
        var cause := AdvanceCause(trig, link, EntryOf(parent, link.region), child, childState, end);
        var index := |tx.events|;
        var tx1 := tx.(events := tx.events + [Finished(child, instance.depth, link, end, target, None)]);
        var (tx2, written) :- WriteEntity(reg, tx1, trig, parentKey, parent,
                                          AdvanceSpec(machine, parent, link.region, link.state, target, trig.timestamp,
                                                      cause));
        Ok(tx2.(events := tx2.events[index := Finished(child, instance.depth, link, end, target, Some(written))]))
  }

  /** What the upward step writes: region `region` goes to `target`, and joins fire from there. */
  function AdvanceSpec(
    machine: Machine, entity: Entity, region: string, from: string, target: string, timestamp: int, cause: Cause)
    : WriteSpec
    requires region in entity.states
  {
    var moved := entity.states[region := target];
    var fired := JoinCascade(machine.joins, moved, JOIN_DEPTH);
    WriteSpec(SubComplete, from, target, region, RowRegion(machine, region), map[], timestamp,
              SubId(region, from, EntryOf(entity, region).entry), cause,
              ApplyFired(moved, fired), fired, Some(entity.context))
  }

  /** Rows of a flat machine name no region. */
  function RowRegion(machine: Machine, region: string): string {
    if machine.IsParallel() then region else ""
  }
}
