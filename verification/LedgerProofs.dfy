/** Cancelling, starting and the whole write path keep the ledger. */
module LedgerProofs {
  import opened Names
  import opened Models
  import opened Engine
  import opened Store
  import opened Lifecycle
  import opened Ledger
  import opened WriteProofs

  // ---------------------------------------------------------------- one cancelled instance

  function CancelledEntity(child: Entity, end: RowRef, now: int): Entity
    requires child.instance.Some?
  {
    child.(version := child.version + 1,
           updatedAt := now,
           entries := Some(StoredEntries(child.version + 1, EffectiveEntries(child))),
           instance := Some(CancelledInstance(child.instance.value, end)))
  }

  lemma CancelOneEffect(tx: Tx, trig: Trigger, key: Key, child: Entity, reason: CancelReason, cancelledBy: RowRef)
    requires Stored(tx, key, child) && child.instance.Some?
    ensures var r := CancelOne(tx, trig, key, child, reason, cancelledBy);
            r.Ok? ==>
              var row := CancelRow(key, child, trig, reason, cancelledBy);
              var end := RowRef(|tx.history| + 1, row.identity);
              && r.value.history == tx.history + [row]
              && r.value.entities == tx.entities[key := CancelledEntity(child, end, trig.now)]
              && r.value.events ==
                 tx.events + [Dropped(key, child.instance.value.depth, child.instance.value.link, reason, end)]
              && (UniqueIdentities(tx.history) ==> UniqueIdentities(r.value.history))
  {
    InsertUnique(tx, CancelRow(key, child, trig, reason, cancelledBy));
  }

  /** Cancellation moves no region and enters none. */
  lemma CancelledEntries(child: Entity, end: RowRef, now: int)
    requires child.instance.Some? && DocumentCurrent(child)
    ensures DocumentCurrent(CancelledEntity(child, end, now))
    ensures EffectiveEntries(CancelledEntity(child, end, now)) == EffectiveEntries(child)
    ensures forall r :: r in child.states ==> EntryOf(CancelledEntity(child, end, now), r) == EntryOf(child, r)
  {
    assert forall r :: r in child.states ==> EntryCurrent(child, r);
    assert forall r :: r in child.states ==> EntryCurrent(CancelledEntity(child, end, now), r);
  }

  lemma CancelledOrigins(key: Key, child: Entity, end: RowRef, now: int, history: seq<Row>, row: Row)
    requires child.instance.Some? && DocumentCurrent(child) && OriginsOk(key, child, history)
    ensures OriginsOk(key, CancelledEntity(child, end, now), history + [row])
  {
    CancelledEntries(child, end, now);
    var e' := CancelledEntity(child, end, now);
    OriginsLater(key, child, history, [row]);
    forall r | r in e'.states ensures OriginOk(key, e', history + [row], r) {
      assert OriginOk(key, child, history + [row], r);
    }
  }

  lemma CancelledRowsOk(
    entities: map<Key, Entity>, history: seq<Row>, key: Key, child: Entity, end: RowRef, now: int, row: Row)
    requires RowsOk(entities, history) && key in entities && entities[key] == child
    requires child.IsActiveChild() && DocumentCurrent(child)
    requires row.entity == key && row.identity.CancelId? && row.eventType == SubCancel && row.cause.CancelCause?
    ensures RowsOk(entities[key := CancelledEntity(child, end, now)], history + [row])
  {
    CancelledEntries(child, end, now);
    var e' := CancelledEntity(child, end, now);
    var entities' := entities[key := e'];
    var h := history + [row];
    forall i | 0 <= i < |h| ensures RowOkAt(entities', h, i) {
      if i < |history| {
        assert RowOkAt(entities, history, i) && h[i] == history[i];
      }
    }
  }

  lemma CancelOneLedger(
    reg: Registry, entities: map<Key, Entity>, history: seq<Row>, key: Key, child: Entity, trig: Trigger,
    reason: CancelReason, cancelledBy: RowRef, pending: Option<Key>)
    requires LedgerOk(reg, entities, history, pending)
    requires key in entities && entities[key] == child && child.IsActiveChild()
    requires UniqueIdentities(history + [CancelRow(key, child, trig, reason, cancelledBy)])
    ensures var row := CancelRow(key, child, trig, reason, cancelledBy);
            LedgerOk(reg, entities[key := CancelledEntity(child, RowRef(|history| + 1, row.identity), trig.now)],
                     history + [row], pending)
  {
    var row := CancelRow(key, child, trig, reason, cancelledBy);
    var end := RowRef(|history| + 1, row.identity);
    var e' := CancelledEntity(child, end, trig.now);
    var entities' := entities[key := e'];
    assert EntityOkAt(reg, entities, history, key);
    CancelledEntries(child, end, trig.now);
    ReplayAppend(history, row, key, reg[key.machine].InitialStates());
    EndsNow(key, e', history, [row]);
    CancelledOrigins(key, child, end, trig.now, history, row);
    assert (history + [row])[..|history|] == history;
    FromsAppend(reg, history, [row]);
    UpdatedEntitiesOk(reg, entities, history, [row], key, e');
    CancelledRowsOk(entities, history, key, child, end, trig.now, row);
    KeptCitations(reg, entities, entities', history, [row], pending);
  }

  // ---------------------------------------------------------------- cancelling a subtree

  /** A cancelled subtree keeps the ledger and touches only ids at least as long as its own. */
  ghost predicate CancelKeeps(reg: Registry, tx: Tx, tx': Tx, length: nat, pending: Option<Key>) {
    && LedgerOk(reg, tx'.entities, tx'.history, pending)
    && tx'.entities.Keys == tx.entities.Keys
    && forall k :: k in tx.entities && |k.id| < length ==> tx'.entities[k] == tx.entities[k]
  }

  lemma {:induction false} CancelSubtreeLedger(
    reg: Registry, tx: Tx, trig: Trigger, key: Key, reason: CancelReason, cancelledBy: RowRef, pending: Option<Key>)
    requires LedgerOk(reg, tx.entities, tx.history, pending)
    ensures var r := CancelSubtree(reg, tx, trig, key, reason, cancelledBy);
            r.Ok? ==> CancelKeeps(reg, tx, r.value, |key.id|, pending)
    decreases KeysFrom(tx.entities.Keys, key.id), 1, 0
  {
    var r := CancelSubtree(reg, tx, trig, key, reason, cancelledBy);
    if r.Ok? && key in tx.entities && tx.entities[key].IsActiveChild() {
      var child := tx.entities[key];
      var regions := SortedKeys(child.states.Keys);
      CancelChildrenLedger(reg, tx, trig, key, reg[key.machine], child.states, regions, cancelledBy, pending);
      var tx1 := CancelChildren(reg, tx, trig, key, reg[key.machine], child.states, regions, cancelledBy).value;
      CancelTopKeeps(reg, tx, tx1, trig, key, child, reason, cancelledBy, pending);
    }
  }

  lemma CancelTopKeeps(
    reg: Registry, tx: Tx, tx1: Tx, trig: Trigger, key: Key, child: Entity, reason: CancelReason, cancelledBy: RowRef,
    pending: Option<Key>)
    requires CancelKeeps(reg, tx, tx1, |key.id| + 1, pending)
    requires Stored(tx, key, child) && child.IsActiveChild()
    ensures var r := CancelOne(tx1, trig, key, child, reason, cancelledBy);
            r.Ok? ==> CancelKeeps(reg, tx, r.value, |key.id|, pending)
  {
    if CancelOne(tx1, trig, key, child, reason, cancelledBy).Ok? {
      CancelOneEffect(tx1, trig, key, child, reason, cancelledBy);
      CancelOneLedger(reg, tx1.entities, tx1.history, key, child, trig, reason, cancelledBy, pending);
    }
  }

  lemma {:induction false} CancelChildrenLedger(
    reg: Registry, tx: Tx, trig: Trigger, key: Key, machine: Machine, states: StateMap, regions: seq<string>,
    cancelledBy: RowRef, pending: Option<Key>)
    requires LedgerOk(reg, tx.entities, tx.history, pending)
    requires key in tx.entities
    requires forall r :: r in regions ==> r in states
    ensures var r := CancelChildren(reg, tx, trig, key, machine, states, regions, cancelledBy);
            r.Ok? ==> CancelKeeps(reg, tx, r.value, |key.id| + 1, pending)
    decreases KeysFrom(tx.entities.Keys, key.id), 0, |regions|
  {
    var r := CancelChildren(reg, tx, trig, key, machine, states, regions, cancelledBy);
    if r.Ok? && regions != [] {
      var state := states[regions[0]];
      match machine.ManagedSub(regions[0], state)
      case None =>
        CancelChildrenLedger(reg, tx, trig, key, machine, states, regions[1..], cancelledBy, pending);
      case Some(sub) =>
        ChildIsDeeper(tx.entities.Keys, key, state);
        var childKey := ChildKey(sub, key.id, state);
        assert |childKey.id| > |key.id|;
        CancelSubtreeLedger(reg, tx, trig, childKey, AncestorCancelled, cancelledBy, pending);
        var tx1 := CancelSubtree(reg, tx, trig, childKey, AncestorCancelled, cancelledBy).value;
        CancelChildrenLedger(reg, tx1, trig, key, machine, states, regions[1..], cancelledBy, pending);
    }
  }

  // ---------------------------------------------------------------- new entities

  lemma InitialRegions(m: Machine)
    ensures m.InitialStates().Keys == m.RegionIds()
  {
  }

  lemma NewIsCurrent(states: StateMap, context: Context, now: int, instance: Option<Instance>)
    ensures var e := NewEntity(states, context, now, instance);
            DocumentCurrent(e) && Unwritten(e)
  {
    var e := NewEntity(states, context, now, instance);
    forall r | r in states ensures EntryCurrent(e, r) && UnwrittenAt(e, r) {
    }
  }

  lemma InsertLedger(
    reg: Registry, entities: map<Key, Entity>, history: seq<Row>, key: Key, context: Context, now: int,
    instance: Option<Instance>, pending: Option<Key>)
    requires LedgerOk(reg, entities, history, pending)
    requires key !in entities && key.machine in reg
    requires instance.Some? ==>
               && NamesChild(reg, instance.value.link, key)
               && instance.value.depth == |instance.value.Path()| <= MAX_MANAGED_DEPTH
               && instance.value.started == 1
               && instance.value.status == Active
               && instance.value.ended.None?
    ensures LedgerOk(reg, entities[key := NewEntity(reg[key.machine].InitialStates(), context, now, instance)],
                     history, pending)
  {
    var e := NewEntity(reg[key.machine].InitialStates(), context, now, instance);
    var entities' := entities[key := e];
    InitialRegions(reg[key.machine]);
    NewIsCurrent(reg[key.machine].InitialStates(), context, now, instance);
    forall i | 0 <= i < |history| ensures history[i].entity in entities && RowOkAt(entities', history, i) {
      assert RowOkAt(entities, history, i);
    }
    NoRowsNoReplay(history, key, reg[key.machine].InitialStates());
    forall k | k in entities' ensures EntityOkAt(reg, entities', history, k) {
      if k != key {
        assert EntityOkAt(reg, entities, history, k);
      }
    }
    assert history + [] == history;
    KeptCitations(reg, entities, entities', history, [], pending);
  }

  /** Starting adds entities and changes none. */
  ghost predicate StartKeeps(reg: Registry, tx: Tx, tx': Tx, pending: Option<Key>) {
    && LedgerOk(reg, tx'.entities, tx'.history, pending)
    && tx'.history == tx.history
    && forall k :: k in tx.entities ==> k in tx'.entities && tx'.entities[k] == tx.entities[k]
  }

  /** The transaction after the child's own insert. */
  function StartedTx(tx: Tx, reg: Registry, childKey: Key, parentPath: seq<Step>, link: Step, now: int): Tx
    requires childKey.machine in reg
  {
    var instance := Instance(Active, |parentPath| + 1, parentPath, link, 1, None);
    tx.(entities := tx.entities[childKey := NewEntity(reg[childKey.machine].InitialStates(), map[], now,
                                                      Some(instance))],
        events := tx.events + [Started(childKey, |parentPath| + 1, link)])
  }

  lemma {:induction false} StartChildLedger(
    reg: Registry, tx: Tx, trig: Trigger, parentKey: Key, parentPath: seq<Step>, region: string, state: string,
    entry: int, pending: Option<Key>)
    requires LedgerOk(reg, tx.entities, tx.history, pending)
    requires parentKey.machine in reg
    ensures var r := StartChild(reg, tx, trig, parentKey, parentPath, region, state, entry);
            r.Ok? ==> StartKeeps(reg, tx, r.value, pending)
    decreases MAX_MANAGED_DEPTH + 1 - |parentPath|, 1, 0
  {
    var r := StartChild(reg, tx, trig, parentKey, parentPath, region, state, entry);
    if r.Ok? {
      var sub := reg[parentKey.machine].ManagedSub(region, state).value;
      var machine := reg[sub.machineId];
      var childKey := ChildKey(sub, parentKey.id, state);
      var link := Step(parentKey.machine, parentKey.id, region, state, entry);
      var instance := Instance(Active, |parentPath| + 1, parentPath, link, 1, None);
      InsertLedger(reg, tx.entities, tx.history, childKey, map[], trig.now, Some(instance), pending);
      var tx1 := StartedTx(tx, reg, childKey, parentPath, link, trig.now);
      StartChildrenLedger(reg, tx1, trig, childKey, parentPath + [link], machine.InitialStates(),
                          SortedKeys(machine.InitialStates().Keys), pending);
    }
  }

  lemma {:induction false} StartChildrenLedger(
    reg: Registry, tx: Tx, trig: Trigger, key: Key, path: seq<Step>, states: StateMap, regions: seq<string>,
    pending: Option<Key>)
    requires LedgerOk(reg, tx.entities, tx.history, pending)
    requires key.machine in reg
    requires forall r :: r in regions ==> r in states
    ensures var r := StartChildren(reg, tx, trig, key, path, states, regions);
            r.Ok? ==> StartKeeps(reg, tx, r.value, pending)
    decreases MAX_MANAGED_DEPTH + 1 - |path|, 2, |regions|
  {
    var r := StartChildren(reg, tx, trig, key, path, states, regions);
    if r.Ok? && regions != [] {
      if reg[key.machine].ManagedSub(regions[0], states[regions[0]]).Some? {
        StartChildLedger(reg, tx, trig, key, path, regions[0], states[regions[0]], 1, pending);
        var tx1 := StartChild(reg, tx, trig, key, path, regions[0], states[regions[0]], 1).value;
        StartChildrenLedger(reg, tx1, trig, key, path, states, regions[1..], pending);
      } else {
        StartChildrenLedger(reg, tx, trig, key, path, states, regions[1..], pending);
      }
    }
  }

  // ---------------------------------------------------------------- the lifecycle of one written entity

  /** The written entity itself is left alone by its children's lifecycle. */
  ghost predicate LifecycleKeeps(reg: Registry, tx: Tx, tx': Tx, key: Key, pending: Option<Key>) {
    && LedgerOk(reg, tx'.entities, tx'.history, pending)
    && (key in tx.entities ==> key in tx'.entities && tx'.entities[key] == tx.entities[key])
  }

  lemma CancelChildOfLedger(
    reg: Registry, tx: Tx, trig: Trigger, key: Key, region: string, state: string, reason: CancelReason,
    cancelledBy: RowRef, pending: Option<Key>)
    requires LedgerOk(reg, tx.entities, tx.history, pending) && key.machine in reg
    ensures var r := CancelChildOf(reg, tx, trig, key, region, state, reason, cancelledBy);
            r.Ok? ==> LifecycleKeeps(reg, tx, r.value, key, pending)
  {
    match reg[key.machine].ManagedSub(region, state)
    case None =>
    case Some(sub) =>
      CancelSubtreeLedger(reg, tx, trig, ChildKey(sub, key.id, state), reason, cancelledBy, pending);
  }

  lemma LifecycleOfRegionLedger(
    reg: Registry, tx: Tx, trig: Trigger, key: Key, path: seq<Step>, before: map<string, RegionEntry>,
    after: map<string, RegionEntry>, region: string, ended: bool, cancelledBy: RowRef, pending: Option<Key>)
    requires LedgerOk(reg, tx.entities, tx.history, pending) && key.machine in reg && region in after
    ensures var r := LifecycleOfRegion(reg, tx, trig, key, path, before, after, region, ended, cancelledBy);
            r.Ok? ==> LifecycleKeeps(reg, tx, r.value, key, pending)
  {
    var r := LifecycleOfRegion(reg, tx, trig, key, path, before, after, region, ended, cancelledBy);
    if r.Ok? {
      if EntryChanged(before, after, region) {
        var tx1 := tx;
        if region in before {
          var reason := if ended then ParentCompleted else ParentExit;
          CancelChildOfLedger(reg, tx, trig, key, region, before[region].state, reason, cancelledBy, pending);
          tx1 := CancelChildOf(reg, tx, trig, key, region, before[region].state, reason, cancelledBy).value;
        }
        if !ended && reg[key.machine].ManagedSub(region, after[region].state).Some? {
          StartChildLedger(reg, tx1, trig, key, path, region, after[region].state, after[region].entry, pending);
        }
      } else if ended {
        CancelChildOfLedger(reg, tx, trig, key, region, after[region].state, ParentCompleted, cancelledBy, pending);
      }
    }
  }

  lemma {:induction false} ApplyChildLifecycleLedger(
    reg: Registry, tx: Tx, trig: Trigger, key: Key, path: seq<Step>, before: map<string, RegionEntry>,
    after: map<string, RegionEntry>, regions: seq<string>, ended: bool, cancelledBy: RowRef, pending: Option<Key>)
    requires LedgerOk(reg, tx.entities, tx.history, pending) && key.machine in reg
    requires forall r :: r in regions ==> r in after
    ensures var r := ApplyChildLifecycle(reg, tx, trig, key, path, before, after, regions, ended, cancelledBy);
            r.Ok? ==> LifecycleKeeps(reg, tx, r.value, key, pending)
    decreases |regions|
  {
    var r := ApplyChildLifecycle(reg, tx, trig, key, path, before, after, regions, ended, cancelledBy);
    if r.Ok? && regions != [] {
      LifecycleOfRegionLedger(reg, tx, trig, key, path, before, after, regions[0], ended, cancelledBy, pending);
      var tx1 := LifecycleOfRegion(reg, tx, trig, key, path, before, after, regions[0], ended, cancelledBy).value;
      ApplyChildLifecycleLedger(reg, tx1, trig, key, path, before, after, regions[1..], ended, cancelledBy, pending);
    }
  }

  // ---------------------------------------------------------------- the write path

  /** A child that completed at `end` and is about to be cited by its parent. */
  ghost predicate AwaitsParent(
    reg: Registry, tx: Tx, child: Key, childState: Encoded, instance: Instance, target: string, end: RowRef)
  {
    && child in tx.entities
    && tx.entities[child].instance == Some(instance)
    && instance.status == Completed
    && instance.ended == Some(end)
    && childState == Encode(tx.entities[child].states)
    && SendsParent(reg, tx.entities[child], Plain(target))
  }

  lemma AdvanceSpecOk(reg: Registry, key: Key, e: Entity, region: string, target: string, timestamp: int, cause: Cause)
    requires key.machine in reg && WellFormed(reg[key.machine]) && e.states.Keys == reg[key.machine].RegionIds()
    requires region in e.states && cause.SubCompleteCause?
    ensures SpecOk(reg, key, e, AdvanceSpec(reg[key.machine], e, region, e.states[region], target, timestamp, cause))
  {
    JoinCascadeWithin(reg[key.machine].joins, e.states[region := target], JOIN_DEPTH, e.states.Keys);
  }
}
