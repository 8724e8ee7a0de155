/** The lifecycle events of a commit are exactly the difference between the stores before and after. */
module CommitLog {
  import opened Names
  import opened Models
  import opened Engine
  import opened Store
  import opened Lifecycle
  import opened Ledger
  import opened WriteProofs
  import opened LedgerProofs
  import opened Growth
  import opened CascadeProofs
  import opened Requests
  import opened Delivery
  import opened Writes
  import opened Runs

  /** The managed instances and their statuses. An instance that is `pending` has completed but its
      event is not recorded yet. */
  function Statuses(entities: map<Key, Entity>, pending: Option<Key>): map<Key, Status> {
    map k | k in entities && entities[k].instance.Some? ::
      if pending == Some(k) then Active else entities[k].instance.value.status
  }

  function EndStatus(event: InstanceEvent): Status {
    match event
    case Started(_, _, _) => Active
    case Finished(_, _, _, _, _, _) => Completed
    case Dropped(_, _, _, _, _) => Cancelled
  }

  /** A start needs an absent instance; an end needs an active one. */
  function ApplyEvent(statuses: map<Key, Status>, event: InstanceEvent): Option<map<Key, Status>> {
    if event.Started? then
      if event.child in statuses then None else Some(statuses[event.child := Active])
    else if event.child in statuses && statuses[event.child] == Active then
      Some(statuses[event.child := EndStatus(event)])
    else
      None
  }

  function ApplyEvents(statuses: map<Key, Status>, events: seq<InstanceEvent>): Option<map<Key, Status>> {
    if events == [] then Some(statuses)
    else
      match ApplyEvents(statuses, events[..|events| - 1])
      case None => None
      case Some(s) => ApplyEvent(s, events[|events| - 1])
  }

  /** The events so far lead from the statuses at the start of the transaction to the current ones. */
  ghost predicate Logged(start: map<Key, Status>, tx: Tx, pending: Option<Key>) {
    ApplyEvents(start, tx.events) == Some(Statuses(tx.entities, pending))
  }

  /** Filling in the parent's write later does not change what an event says. */
  lemma {:induction false} Patch(
    start: map<Key, Status>, events: seq<InstanceEvent>, index: nat, patched: InstanceEvent)
    requires index < |events| && events[index].Finished? && patched.Finished? && patched.child == events[index].child
    ensures ApplyEvents(start, events[index := patched]) == ApplyEvents(start, events)
    decreases |events|
  {
    var n := |events| - 1;
    var changed := events[index := patched];
    if index == n {
      assert changed[..n] == events[..n];
    } else {
      assert changed[..n] == events[..n][index := patched];
      Patch(start, events[..n], index, patched);
    }
  }

  /** Updating one entity updates at most its own status. */
  lemma StatusUpdate(entities: map<Key, Entity>, key: Key, e: Entity, pending: Option<Key>)
    requires key in entities && entities[key].instance.Some? ==> e.instance.Some?
    ensures Statuses(entities[key := e], pending) ==
              if e.instance.Some? then
                Statuses(entities, pending)[key := if pending == Some(key) then Active else e.instance.value.status]
              else Statuses(entities, pending)
  {
  }

  lemma StatusKept(entities: map<Key, Entity>, key: Key, pending: Option<Key>)
    requires key in entities && entities[key].instance.Some?
    ensures var status := if pending == Some(key) then Active else entities[key].instance.value.status;
            Statuses(entities, pending)[key := status] == Statuses(entities, pending)
  {
  }

  // ---------------------------------------------------------------- cancel

  lemma CancelOneLogged(
    start: map<Key, Status>, tx: Tx, trig: Trigger, key: Key, child: Entity, reason: CancelReason,
    cancelledBy: RowRef, pending: Option<Key>)
    requires Logged(start, tx, pending) && Stored(tx, key, child) && child.IsActiveChild() && pending != Some(key)
    ensures var r := CancelOne(tx, trig, key, child, reason, cancelledBy);
            r.Ok? ==> Logged(start, r.value, pending)
  {
    var r := CancelOne(tx, trig, key, child, reason, cancelledBy);
    if r.Ok? {
      CancelOneEffect(tx, trig, key, child, reason, cancelledBy);
      StatusUpdate(tx.entities, key, r.value.entities[key], pending);
    }
  }

  lemma {:induction false} CancelSubtreeLogged(
    reg: Registry, start: map<Key, Status>, tx: Tx, trig: Trigger, key: Key, reason: CancelReason,
    cancelledBy: RowRef, pending: Option<Key>)
    requires LedgerOk(reg, tx.entities, tx.history, pending) && Logged(start, tx, pending)
    ensures var r := CancelSubtree(reg, tx, trig, key, reason, cancelledBy); r.Ok? ==> Logged(start, r.value, pending)
    decreases KeysFrom(tx.entities.Keys, key.id), 1, 0
  {
    var r := CancelSubtree(reg, tx, trig, key, reason, cancelledBy);
    if r.Ok? && key in tx.entities && tx.entities[key].IsActiveChild() {
      var child := tx.entities[key];
      var regions := SortedKeys(child.states.Keys);
      CancelChildrenLogged(reg, start, tx, trig, key, reg[key.machine], child.states, regions, cancelledBy, pending);
      CancelChildrenLedger(reg, tx, trig, key, reg[key.machine], child.states, regions, cancelledBy, pending);
      var tx1 := CancelChildren(reg, tx, trig, key, reg[key.machine], child.states, regions, cancelledBy).value;
      CancelOneLogged(start, tx1, trig, key, child, reason, cancelledBy, pending);
    }
  }

  lemma {:induction false} CancelChildrenLogged(
    reg: Registry, start: map<Key, Status>, tx: Tx, trig: Trigger, key: Key, machine: Machine, states: StateMap,
    regions: seq<string>, cancelledBy: RowRef, pending: Option<Key>)
    requires LedgerOk(reg, tx.entities, tx.history, pending) && Logged(start, tx, pending)
    requires key in tx.entities
    requires forall r :: r in regions ==> r in states
    ensures var r := CancelChildren(reg, tx, trig, key, machine, states, regions, cancelledBy);
            r.Ok? ==> Logged(start, r.value, pending)
    decreases KeysFrom(tx.entities.Keys, key.id), 0, |regions|
  {
    var r := CancelChildren(reg, tx, trig, key, machine, states, regions, cancelledBy);
    if r.Ok? && regions != [] {
      var state := states[regions[0]];
      match machine.ManagedSub(regions[0], state)
      case None =>
        CancelChildrenLogged(reg, start, tx, trig, key, machine, states, regions[1..], cancelledBy, pending);
      case Some(sub) =>
        ChildIsDeeper(tx.entities.Keys, key, state);
        var c := ChildKey(sub, key.id, state);
        CancelSubtreeLogged(reg, start, tx, trig, c, AncestorCancelled, cancelledBy, pending);
        CancelSubtreeLedger(reg, tx, trig, c, AncestorCancelled, cancelledBy, pending);
        var tx1 := CancelSubtree(reg, tx, trig, c, AncestorCancelled, cancelledBy).value;
        CancelChildrenLogged(reg, start, tx1, trig, key, machine, states, regions[1..], cancelledBy, pending);
    }
  }

  lemma CancelChildOfLogged(
    reg: Registry, start: map<Key, Status>, tx: Tx, trig: Trigger, key: Key, region: string, state: string,
    reason: CancelReason, cancelledBy: RowRef, pending: Option<Key>)
    requires LedgerOk(reg, tx.entities, tx.history, pending) && Logged(start, tx, pending) && key.machine in reg
    ensures var r := CancelChildOf(reg, tx, trig, key, region, state, reason, cancelledBy);
            r.Ok? ==> Logged(start, r.value, pending)
  {
    match reg[key.machine].ManagedSub(region, state)
    case None =>
    case Some(sub) => CancelSubtreeLogged(reg, start, tx, trig, ChildKey(sub, key.id, state), reason, cancelledBy,
                                          pending);
  }

  // ---------------------------------------------------------------- start

  lemma StartedLogged(reg: Registry, start: map<Key, Status>, tx: Tx, key: Key, path: seq<Step>, link: Step, now: int)
    requires Logged(start, tx, None) && key !in tx.entities && key.machine in reg
    ensures Logged(start, StartedTx(tx, reg, key, path, link, now), None)
  {
    var tx1 := StartedTx(tx, reg, key, path, link, now);
    StatusUpdate(tx.entities, key, tx1.entities[key], None);
  }

  lemma {:induction false} StartChildLogged(
    reg: Registry, start: map<Key, Status>, tx: Tx, trig: Trigger, parentKey: Key, path: seq<Step>, region: string,
    state: string, entry: int)
    requires Logged(start, tx, None) && parentKey.machine in reg
    ensures var r := StartChild(reg, tx, trig, parentKey, path, region, state, entry);
            r.Ok? ==> Logged(start, r.value, None)
    decreases MAX_MANAGED_DEPTH + 1 - |path|, 1, 0
  {
    var r := StartChild(reg, tx, trig, parentKey, path, region, state, entry);
    if r.Ok? {
      var sub := reg[parentKey.machine].ManagedSub(region, state).value;
      var link := Step(parentKey.machine, parentKey.id, region, state, entry);
      var childKey := ChildKey(sub, parentKey.id, state);
      var states := reg[sub.machineId].InitialStates();
      StartedLogged(reg, start, tx, childKey, path, link, trig.now);
      StartChildrenLogged(reg, start, StartedTx(tx, reg, childKey, path, link, trig.now), trig, childKey,
                          path + [link], states,
                          SortedKeys(states.Keys));
    }
  }

  lemma {:induction false} StartChildrenLogged(
    reg: Registry, start: map<Key, Status>, tx: Tx, trig: Trigger, key: Key, path: seq<Step>, states: StateMap,
    regions: seq<string>)
    requires Logged(start, tx, None) && key.machine in reg
    requires forall r :: r in regions ==> r in states
    ensures var r := StartChildren(reg, tx, trig, key, path, states, regions); r.Ok? ==> Logged(start, r.value, None)
    decreases MAX_MANAGED_DEPTH + 1 - |path|, 2, |regions|
  {
    var r := StartChildren(reg, tx, trig, key, path, states, regions);
    if r.Ok? && regions != [] {
      if reg[key.machine].ManagedSub(regions[0], states[regions[0]]).Some? {
        StartChildLogged(reg, start, tx, trig, key, path, regions[0], states[regions[0]], 1);
        var tx1 := StartChild(reg, tx, trig, key, path, regions[0], states[regions[0]], 1).value;
        StartChildrenLogged(reg, start, tx1, trig, key, path, states, regions[1..]);
      } else {
        StartChildrenLogged(reg, start, tx, trig, key, path, states, regions[1..]);
      }
    }
  }

  // ---------------------------------------------------------------- lifecycle

  lemma LifecycleOfRegionLogged(
    reg: Registry, start: map<Key, Status>, tx: Tx, trig: Trigger, key: Key, path: seq<Step>,
    before: map<string, RegionEntry>, after: map<string, RegionEntry>, region: string, ended: bool,
    cancelledBy: RowRef, pending: Option<Key>)
    requires LedgerOk(reg, tx.entities, tx.history, pending) && Logged(start, tx, pending) && key.machine in reg &&
             region in after
    requires ended || pending == None
    ensures var r := LifecycleOfRegion(reg, tx, trig, key, path, before, after, region, ended, cancelledBy);
            r.Ok? ==> Logged(start, r.value, pending)
  {
    var r := LifecycleOfRegion(reg, tx, trig, key, path, before, after, region, ended, cancelledBy);
    if r.Ok? {
      if EntryChanged(before, after, region) {
        var tx1 := tx;
        if region in before {
          var reason := if ended then ParentCompleted else ParentExit;
          CancelChildOfLogged(reg, start, tx, trig, key, region, before[region].state, reason, cancelledBy, pending);
          tx1 := CancelChildOf(reg, tx, trig, key, region, before[region].state, reason, cancelledBy).value;
        }
        if !ended && reg[key.machine].ManagedSub(region, after[region].state).Some? {
          StartChildLogged(reg, start, tx1, trig, key, path, region, after[region].state, after[region].entry);
        }
      } else if ended {
        CancelChildOfLogged(reg, start, tx, trig, key, region, after[region].state, ParentCompleted, cancelledBy,
                            pending);
      }
    }
  }

  lemma {:induction false} ApplyChildLifecycleLogged(
    reg: Registry, start: map<Key, Status>, tx: Tx, trig: Trigger, key: Key, path: seq<Step>,
    before: map<string, RegionEntry>, after: map<string, RegionEntry>, regions: seq<string>, ended: bool,
    cancelledBy: RowRef, pending: Option<Key>)
    requires LedgerOk(reg, tx.entities, tx.history, pending) && Logged(start, tx, pending) && key.machine in reg
    requires forall r :: r in regions ==> r in after
    requires ended || pending == None
    ensures var r := ApplyChildLifecycle(reg, tx, trig, key, path, before, after, regions, ended, cancelledBy);
            r.Ok? ==> Logged(start, r.value, pending)
    decreases |regions|
  {
    var r := ApplyChildLifecycle(reg, tx, trig, key, path, before, after, regions, ended, cancelledBy);
    if r.Ok? && regions != [] {
      var r0 := regions[0];
      LifecycleOfRegionLogged(reg, start, tx, trig, key, path, before, after, r0, ended, cancelledBy, pending);
      LifecycleOfRegionLedger(reg, tx, trig, key, path, before, after, r0, ended, cancelledBy, pending);
      var tx1 := LifecycleOfRegion(reg, tx, trig, key, path, before, after, r0, ended, cancelledBy).value;
      ApplyChildLifecycleLogged(reg, start, tx1, trig, key, path, before, after, regions[1..], ended, cancelledBy,
                                pending);
    }
  }

  // ---------------------------------------------------------------- the write path

  /** The own write completes at most its own instance. */
  lemma OwnWriteLogged(
    reg: Registry, start: map<Key, Status>, tx: Tx, now: int, key: Key, e: Entity, spec: WriteSpec, w: OwnWrite)
    requires Logged(start, tx, None) && Stored(tx, key, e) && OwnEffect(reg, tx, now, key, e, spec, w)
    ensures Logged(start, w.tx, PendingAfter(key, w))
  {
    var pending := PendingAfter(key, w);
    StatusUpdate(tx.entities, key, w.tx.entities[key], pending);
    if e.instance.Some? {
      StatusKept(tx.entities, key, None);
      assert Statuses(tx.entities, pending)[key := Active] == Statuses(tx.entities, None)[key := Active];
    } else {
      assert Statuses(tx.entities, pending) == Statuses(tx.entities, None);
    }
  }

  lemma CompletedLogged(start: map<Key, Status>, tx: Tx, child: Key, instance: Instance, end: RowRef, target: string)
    requires Logged(start, tx, Some(child)) && child in tx.entities && tx.entities[child].instance == Some(instance)
    requires instance.status == Completed
    ensures Logged(start,
                   tx.(events := tx.events + [Finished(child, instance.depth, instance.link, end, target, None)]), None)
  {
    var before, after := Statuses(tx.entities, Some(child)), Statuses(tx.entities, None);
    forall k | k in after ensures k in before && after[k] == before[child := Completed][k] {
    }
    assert after.Keys == before.Keys && after == before[child := Completed];
  }

  lemma {:induction false} WriteEntityLogged(
    reg: Registry, start: map<Key, Status>, tx: Tx, trig: Trigger, key: Key, entity: Entity, spec: WriteSpec)
    requires WellFormedRegistry(reg) && LedgerOk(reg, tx.entities, tx.history, CitedBy(spec)) && Logged(start, tx, None)
    requires Stored(tx, key, entity) && SpecOk(reg, key, entity, spec)
    requires CitedBy(spec).Some? ==>
               Cites(reg, MainRow(key, spec, trig.now), CitedBy(spec).value, tx.entities[CitedBy(spec).value])
    ensures var r := WriteEntity(reg, tx, trig, key, entity, spec); r.Ok? ==> Logged(start, r.value.0, None)
    decreases ActiveKeys(tx.entities), 0
  {
    var r := WriteEntity(reg, tx, trig, key, entity, spec);
    if r.Ok? {
      OwnWriteEnds(reg, tx, trig.now, key, entity, spec);
      WriteOwnEffect(reg, tx, trig.now, key, entity, spec);
      var w := WriteOwn(reg, tx, trig.now, key, entity, spec).value;
      WriteOwnLedger(reg, tx, trig.now, key, entity, spec, w);
      OwnWriteLogged(reg, start, tx, trig.now, key, entity, spec, w);
      var pending := PendingAfter(key, w);
      var before, after, regions := EffectiveEntries(entity), w.entries.regions, SortedKeys(w.entries.regions.Keys);
      ApplyChildLifecycleLogged(reg, start, w.tx, trig, key, entity.Path(), before, after, regions, w.completion.Some?,
                                w.row, pending);
      ApplyChildLifecycleLedger(reg, w.tx, trig, key, entity.Path(), before, after, regions, w.completion.Some?, w.row,
                                pending);
      var tx1 := ApplyChildLifecycle(reg, w.tx, trig, key, entity.Path(), before, after, regions, w.completion.Some?,
                                     w.row).value;
      if w.completion.Some? {
        CompletedAwaits(reg, tx, trig.now, key, entity, spec, w, tx1);
        CompleteParentLogged(reg, start, tx1, trig, key, Encode(spec.newStates), w.instance.value, w.completion.value,
                             w.row);
      }
    }
  }

  lemma {:induction false} CompleteParentLogged(
    reg: Registry, start: map<Key, Status>, tx: Tx, trig: Trigger, child: Key, childState: Encoded,
    instance: Instance, target: string, end: RowRef)
    requires WellFormedRegistry(reg) && LedgerOk(reg, tx.entities, tx.history, Some(child)) &&
             Logged(start, tx, Some(child))
    requires AwaitsParent(reg, tx, child, childState, instance, target, end)
    ensures var r := CompleteParent(reg, tx, trig, child, childState, instance, target, end);
            r.Ok? ==> Logged(start, r.value, None)
    decreases ActiveKeys(tx.entities), 1
  {
    var r := CompleteParent(reg, tx, trig, child, childState, instance, target, end);
    if r.Ok? {
      var link := instance.link;
      var parentKey := ParentKey(link);
      var parent := tx.entities[parentKey];
      assert EntityOkAt(reg, tx.entities, tx.history, parentKey);
      var cause := AdvanceCause(trig, link, EntryOf(parent, link.region), child, childState, end);
      var pushed := Finished(child, instance.depth, link, end, target, None);
      var tx1 := tx.(events := tx.events + [pushed]);
      var spec := AdvanceSpec(reg[link.machine], parent, link.region, link.state, target, trig.timestamp, cause);
      CompletedLogged(start, tx, child, instance, end, target);
      AdvanceSpecOk(reg, parentKey, parent, link.region, target, trig.timestamp, cause);
      WriteEntityLogged(reg, start, tx1, trig, parentKey, parent, spec);
      WriteEntityGrows(reg, tx1, trig, parentKey, parent, spec);
      var tx2 := WriteEntity(reg, tx1, trig, parentKey, parent, spec).value.0;
      Patch(start, tx2.events, |tx.events|, r.value.events[|tx.events|]);
    }
  }

  // ---------------------------------------------------------------- what a log says

  predicate IsEnd(event: InstanceEvent) {
    !event.Started?
  }

  lemma {:induction false} LogKeepsInstances(start: map<Key, Status>, events: seq<InstanceEvent>, k: Key)
    requires ApplyEvents(start, events).Some? && k in start
    ensures k in ApplyEvents(start, events).value
    ensures start[k] != Active ==> ApplyEvents(start, events).value[k] == start[k]
    decreases |events|
  {
    if events != [] {
      LogKeepsInstances(start, events[..|events| - 1], k);
    }
  }

  /** An instance has a start event exactly if it is new, and an end event exactly if it ended. */
  lemma {:induction false} LogIsDifference(start: map<Key, Status>, events: seq<InstanceEvent>, k: Key)
    requires ApplyEvents(start, events).Some?
    ensures var end := ApplyEvents(start, events).value;
            && ((exists i :: 0 <= i < |events| && events[i].Started? && events[i].child == k) <==>
              k !in start && k in end)
            && ((exists i :: 0 <= i < |events| && events[i].Finished? && events[i].child == k) <==>
                  k in end && end[k] == Completed && (k in start ==> start[k] == Active))
            && ((exists i :: 0 <= i < |events| && events[i].Dropped? && events[i].child == k) <==>
                  k in end && end[k] == Cancelled && (k in start ==> start[k] == Active))
    decreases |events|
  {
    if events != [] {
      var n := |events| - 1;
      var init, last := events[..n], events[n];
      LogIsDifference(start, init, k);
      if k in start {
        LogKeepsInstances(start, init, k);
      }
      assert events[n] == last;
      assert forall i :: 0 <= i < n ==> events[i] == init[i];
    }
  }

  /** No instance starts twice, or ends twice. */
  lemma {:induction false} LogOnce(start: map<Key, Status>, events: seq<InstanceEvent>, i: nat, j: nat)
    requires ApplyEvents(start, events).Some?
    requires i < j < |events| && events[i].child == events[j].child
    ensures events[i].Started? && IsEnd(events[j])
    decreases |events|
  {
    var n := |events| - 1;
    if j < n {
      LogOnce(start, events[..n], i, j);
    } else {
      LogIsDifference(start, events[..n], events[i].child);
      assert events[..n][i] == events[i];
    }
  }

  // ---------------------------------------------------------------- steps

  lemma CreateLogged(reg: Registry, start: map<Key, Status>, tx: Tx, trig: Trigger, key: Key, context: Context)
    requires Logged(start, tx, None) && key.machine in reg && key !in tx.entities
    ensures var r := CreateRoot(reg, tx, trig, key, context); r.Ok? ==> Logged(start, r.value, None)
  {
    var states := reg[key.machine].InitialStates();
    var e := NewEntity(states, context, trig.now, None);
    StatusUpdate(tx.entities, key, e, None);
    StartChildrenLogged(reg, start, tx.(entities := tx.entities[key := e]), trig, key, [], states,
                        SortedKeys(states.Keys));
  }

  lemma ServeLogged(reg: Registry, db: Db, request: Request)
    requires WellFormedRegistry(reg) && Consistent(reg, db)
    ensures var r := ServeTx(reg, db, request);
            r.Ok? && r.value.Some? ==> Logged(Statuses(db.entities, None), r.value.value, None)
  {
    var start, tx := Statuses(db.entities, None), Begin(db);
    assert Logged(start, tx, None);
    if request.key.machine in reg {
      if request.Create? {
        if request.key !in db.entities {
          CreateLogged(reg, start, tx, TriggerOf(request), request.key, request.context);
        }
      } else {
        RequestWrites(reg, db, request);
        var answer := ServeTx(reg, db, request);
        if answer.Ok? && answer.value.Some? {
          var h, spec :| WriteGives(reg, db, request, h, spec, Ok(answer.value.value));
          WriteEntityLogged(reg, start, tx, TriggerOf(request), h, db.entities[h], spec);
        }
      }
    }
  }

  lemma ServedLogged(reg: Registry, run: seq<Served>, n: nat)
    requires WellFormedRegistry(reg) && IsRun(reg, run) && n < |run|
    ensures run[n].Commits() ==>
              && Logged(Statuses(StoreAt(run, n).entities, None), run[n].Committed(), None)
              && StoreAt(run, n + 1) == Commit(run[n].Committed())
  {
    ReachableConsistent(reg, run, n);
    assert ServedAt(reg, run, n);
    ServeLogged(reg, StoreAt(run, n), run[n].request);
  }

  /** An instance that a commit adds is active after it. */
  lemma NewInstancesActive(reg: Registry, run: seq<Served>, n: nat, k: Key)
    requires WellFormedRegistry(reg) && IsRun(reg, run) && n < |run|
    ensures var before, after := Statuses(StoreAt(run, n).entities, None), Statuses(StoreAt(run, n + 1).entities, None);
            k !in before && k in after ==> after[k] == Active
  {
    var db, db', request := StoreAt(run, n), StoreAt(run, n + 1), run[n].request;
    ServedSettles(reg, run, n);
    if db' != db && !request.Create? {
      assert TouchedAt(db.entities, db'.entities, RootOf(request.key, db.entities[request.key]), k);
    }
  }

  /** The commit's events are exactly the instances that started, completed and were cancelled in it. */
  lemma CommitLogExact(reg: Registry, run: seq<Served>, n: nat, k: Key)
    requires WellFormedRegistry(reg) && IsRun(reg, run) && n < |run|
    ensures run[n].Commits() ==>
              var events := run[n].Committed().events;
              var before, after := Statuses(StoreAt(run, n).entities, None),
                  Statuses(StoreAt(run, n + 1).entities, None);
              && ((exists i :: 0 <= i < |events| && events[i].Started? && events[i].child == k) <==>
                k !in before && k in after)
              && ((exists i :: 0 <= i < |events| && events[i].Finished? && events[i].child == k) <==>
                    k in before && k in after && before[k] == Active && after[k] == Completed)
              && ((exists i :: 0 <= i < |events| && events[i].Dropped? && events[i].child == k) <==>
                    k in before && k in after && before[k] == Active && after[k] == Cancelled)
  {
    ServedLogged(reg, run, n);
    if run[n].Commits() {
      LogIsDifference(Statuses(StoreAt(run, n).entities, None), run[n].Committed().events, k);
      NewInstancesActive(reg, run, n, k);
    }
  }

  /** Each instance has at most one event in a commit: none both starts and ends in it. */
  lemma CommitEventsDistinct(reg: Registry, run: seq<Served>, n: nat, i: nat, j: nat)
    requires WellFormedRegistry(reg) && IsRun(reg, run) && n < |run|
    ensures run[n].Commits() && i < j < |run[n].Committed().events| ==>
              run[n].Committed().events[i].child != run[n].Committed().events[j].child
  {
    ServedLogged(reg, run, n);
    if run[n].Commits() && i < j < |run[n].Committed().events| {
      var events := run[n].Committed().events;
      NewInstancesActive(reg, run, n, events[j].child);
      OneEventEach(Statuses(StoreAt(run, n).entities, None), events, i, j);
    }
  }

  lemma OneEventEach(start: map<Key, Status>, events: seq<InstanceEvent>, i: nat, j: nat)
    requires ApplyEvents(start, events).Some? && i < j < |events|
    requires var end := ApplyEvents(start, events).value;
             events[j].child !in start && events[j].child in end ==> end[events[j].child] == Active
    ensures events[i].child != events[j].child
  {
    if events[i].child == events[j].child {
      LogOnce(start, events, i, j);
      LogIsDifference(start, events, events[j].child);
      assert false;
    }
  }
}
