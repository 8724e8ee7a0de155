/** The history and the commit's event list only grow, versions only rise, and no region returns to an
    entry instance it left: every function of the write path appends. */
module Growth {
  import opened Names
  import opened Models
  import opened Engine
  import opened Store
  import opened Lifecycle
  import opened Ledger
  import opened WriteProofs
  import opened LedgerProofs
  import opened StartProofs
  import opened CascadeProofs
  import opened Requests
  import opened Delivery
  import opened Writes
  import opened Runs

  // ---------------------------------------------------------------- entry instances

  /** The region is still in the entry instance it was in, or was entered again since. */
  ghost predicate EntryStays(e: Entity, e': Entity, r: string) {
    r in e'.states && ((r in e.states && EntryOf(e', r) == EntryOf(e, r)) || e.version < EntryOf(e', r).entry)
  }

  /** An instance keeps its place in the tree. */
  ghost predicate SamePlace(e: Entity, e': Entity) {
    && (e.instance.None? <==> e'.instance.None?)
    && (e.instance.Some? ==>
          var i, i' := e.instance.value, e'.instance.value;
          i'.link == i.link && i'.above == i.above && i'.depth == i.depth && i'.started == i.started)
  }

  /** Only live entities are written. Every write gives the row a new version, and a region that it
      enters a new entry instance. */
  ghost predicate Kept(e: Entity, e': Entity) {
    e' == e || (
      && e.Live()
      && e.version < e'.version
      && SamePlace(e, e') && e'.createdAt == e.createdAt
      && forall r {:trigger EntryStays(e, e', r)} :: r in e'.states ==> EntryStays(e, e', r))
  }

  ghost predicate KeptAt(entities: map<Key, Entity>, entities': map<Key, Entity>, k: Key) {
    k in entities ==> k in entities' && Kept(entities[k], entities'[k])
  }

  ghost predicate AllKept(entities: map<Key, Entity>, entities': map<Key, Entity>) {
    forall k {:trigger KeptAt(entities, entities', k)} :: KeptAt(entities, entities', k)
  }

  lemma KeptOn(e: Entity, e1: Entity, e2: Entity)
    requires Kept(e, e1) && Kept(e1, e2)
    ensures Kept(e, e2)
  {
    if e1 != e && e2 != e1 {
      forall r | r in e2.states ensures EntryStays(e, e2, r) {
        assert EntryStays(e1, e2, r);
        assert r in e1.states ==> EntryStays(e, e1, r);
      }
    }
  }

  lemma AllKeptOn(entities: map<Key, Entity>, entities1: map<Key, Entity>, entities2: map<Key, Entity>)
    requires AllKept(entities, entities1) && AllKept(entities1, entities2)
    ensures AllKept(entities, entities2)
  {
    forall k ensures KeptAt(entities, entities2, k) {
      assert KeptAt(entities, entities1, k) && KeptAt(entities1, entities2, k);
      if k in entities {
        KeptOn(entities[k], entities1[k], entities2[k]);
      }
    }
  }

  // ---------------------------------------------------------------- events

  /** The parent's row that a completion cites as its effect. */
  ghost predicate AdvancedBy(history: seq<Row>, child: Key, link: Step, end: RowRef, to: string, written: RowRef) {
    && 1 <= written.row <= |history|
    && var row := history[written.row - 1];
       && row.entity == ParentKey(link)
       && row.identity == written.key == SubId(link.region, link.state, link.entry)
       && row.to == Plain(to)
       && row.cause.SubCompleteCause? && row.cause.child == child && row.cause.childEnd == end &&
          row.cause.parentEntry == link
  }

  /** The row that cancelled an instance. */
  ghost predicate CancelledBy(history: seq<Row>, child: Key, link: Step, reason: CancelReason, end: RowRef) {
    && 1 <= end.row <= |history|
    && var row := history[end.row - 1];
       && row.entity == child
       && row.identity == end.key == CancelId(link.entry)
       && row.cause.CancelCause? && row.cause.reason == reason && row.cause.parent == link
  }

  /** What an event says of its instance is so. */
  ghost predicate EventTrue(entities: map<Key, Entity>, history: seq<Row>, event: InstanceEvent) {
    && event.child in entities && entities[event.child].instance.Some?
    && var i := entities[event.child].instance.value;
       && i.link == event.parent && i.depth == event.depth
       && match event
          case Started(_, _, _) => true
          case Finished(child, _, link, end, to, written) =>
            i.status == Completed && i.ended == Some(end) && written.Some? &&
                AdvancedBy(history, child, link, end, to, written.value)
          case Dropped(child, _, link, reason, end) =>
            i.status == Cancelled && i.ended == Some(end) && CancelledBy(history, child, link, reason, end)
  }

  lemma EventStays(
    entities: map<Key, Entity>, history: seq<Row>, entities': map<Key, Entity>, history': seq<Row>,
    event: InstanceEvent)
    requires AllKept(entities, entities') && history <= history'
    requires EventTrue(entities, history, event)
    ensures EventTrue(entities', history', event)
  {
    assert KeptAt(entities, entities', event.child);
    match event
    case Started(_, _, _) =>
    case Finished(_, _, _, _, _, written) =>
      assert history'[..|history|][written.value.row - 1] == history[written.value.row - 1];
    case Dropped(_, _, _, _, end) => assert history'[..|history|][end.row - 1] == history[end.row - 1];
  }

  ghost predicate TrueAt(tx: Tx, i: nat)
    requires i < |tx.events|
  {
    EventTrue(tx.entities, tx.history, tx.events[i])
  }

  ghost predicate EventsTrue(tx: Tx, from: nat) {
    forall i {:trigger TrueAt(tx, i)} :: from <= i < |tx.events| ==> TrueAt(tx, i)
  }

  // ---------------------------------------------------------------- growth

  ghost predicate Grows(tx: Tx, tx': Tx) {
    tx.history <= tx'.history && tx.events <= tx'.events && AllKept(tx.entities, tx'.entities) &&
        EventsTrue(tx', |tx.events|)
  }

  lemma GrowsOn(tx: Tx, tx1: Tx, tx2: Tx)
    requires Grows(tx, tx1) && Grows(tx1, tx2)
    ensures Grows(tx, tx2)
  {
    assert tx2.history[..|tx.history|] == tx2.history[..|tx1.history|][..|tx.history|];
    assert tx2.events[..|tx.events|] == tx2.events[..|tx1.events|][..|tx.events|];
    AllKeptOn(tx.entities, tx1.entities, tx2.entities);
    forall i | |tx.events| <= i < |tx2.events| ensures TrueAt(tx2, i) {
      if i < |tx1.events| {
        assert TrueAt(tx1, i);
        assert tx2.events[..|tx1.events|][i] == tx1.events[i];
        EventStays(tx1.entities, tx1.history, tx2.entities, tx2.history, tx1.events[i]);
      }
    }
  }

  /** Everything new was created at `now`. */
  ghost predicate Born(entities: map<Key, Entity>, entities': map<Key, Entity>, now: int) {
    forall k {:trigger BornAt(entities, entities', now, k)} :: BornAt(entities, entities', now, k)
  }

  ghost predicate BornAt(entities: map<Key, Entity>, entities': map<Key, Entity>, now: int, k: Key) {
    k in entities' && k !in entities ==> entities'[k].createdAt == now
  }

  ghost predicate GrowsAt(tx: Tx, tx': Tx, now: int) {
    Grows(tx, tx') && Born(tx.entities, tx'.entities, now)
  }

  lemma GrowsAtOn(tx: Tx, tx1: Tx, tx2: Tx, now: int)
    requires GrowsAt(tx, tx1, now) && GrowsAt(tx1, tx2, now)
    ensures GrowsAt(tx, tx2, now)
  {
    GrowsOn(tx, tx1, tx2);
    forall k ensures BornAt(tx.entities, tx2.entities, now, k) {
      assert BornAt(tx.entities, tx1.entities, now, k) && BornAt(tx1.entities, tx2.entities, now, k);
      assert KeptAt(tx1.entities, tx2.entities, k);
    }
  }

  lemma NothingBorn(tx: Tx, tx': Tx, now: int)
    requires Grows(tx, tx') && tx'.entities.Keys == tx.entities.Keys
    ensures GrowsAt(tx, tx', now)
  {
    forall k ensures BornAt(tx.entities, tx'.entities, now, k) {
      assert k in tx'.entities.Keys <==> k in tx.entities.Keys;
    }
  }

  lemma CancelOneGrows(tx: Tx, tx1: Tx, trig: Trigger, key: Key, reason: CancelReason, cancelledBy: RowRef)
    requires key in tx.entities && tx.entities[key].IsActiveChild() && Grows(tx, tx1)
    ensures var r := CancelOne(tx1, trig, key, tx.entities[key], reason, cancelledBy); r.Ok? ==> Grows(tx, r.value)
  {
    var r := CancelOne(tx1, trig, key, tx.entities[key], reason, cancelledBy);
    if r.Ok? {
      assert KeptAt(tx.entities, tx1.entities, key);
      var e := tx.entities[key];
      var end := RowRef(|tx1.history| + 1, CancelId(e.instance.value.link.entry));
      assert tx1.entities[key] == e;
      assert r.value.entities == tx1.entities[key := CancelledEntity(e, end, trig.now)];
      GrowsOn(tx, tx1, r.value);
    }
  }

  lemma {:induction false} CancelSubtreeGrows(
    reg: Registry, tx: Tx, trig: Trigger, key: Key, reason: CancelReason, cancelledBy: RowRef)
    ensures var r := CancelSubtree(reg, tx, trig, key, reason, cancelledBy); r.Ok? ==> Grows(tx, r.value)
    decreases KeysFrom(tx.entities.Keys, key.id), 1, 0
  {
    var r := CancelSubtree(reg, tx, trig, key, reason, cancelledBy);
    if r.Ok? && key in tx.entities && tx.entities[key].IsActiveChild() {
      var child := tx.entities[key];
      var regions := SortedKeys(child.states.Keys);
      CancelChildrenGrows(reg, tx, trig, key, reg[key.machine], child.states, regions, cancelledBy);
      var tx1 := CancelChildren(reg, tx, trig, key, reg[key.machine], child.states, regions, cancelledBy).value;
      CancelOneGrows(tx, tx1, trig, key, reason, cancelledBy);
    }
  }

  lemma {:induction false} CancelChildrenGrows(
    reg: Registry, tx: Tx, trig: Trigger, key: Key, machine: Machine, states: StateMap, regions: seq<string>,
    cancelledBy: RowRef)
    requires key in tx.entities
    requires forall r :: r in regions ==> r in states
    ensures var r := CancelChildren(reg, tx, trig, key, machine, states, regions, cancelledBy);
            r.Ok? ==> Grows(tx, r.value)
    decreases KeysFrom(tx.entities.Keys, key.id), 0, |regions|
  {
    var r := CancelChildren(reg, tx, trig, key, machine, states, regions, cancelledBy);
    if r.Ok? && regions != [] {
      var state := states[regions[0]];
      match machine.ManagedSub(regions[0], state)
      case None =>
        CancelChildrenGrows(reg, tx, trig, key, machine, states, regions[1..], cancelledBy);
      case Some(sub) =>
        ChildIsDeeper(tx.entities.Keys, key, state);
        CancelSubtreeGrows(reg, tx, trig, ChildKey(sub, key.id, state), AncestorCancelled, cancelledBy);
        var tx1 := CancelSubtree(reg, tx, trig, ChildKey(sub, key.id, state), AncestorCancelled, cancelledBy).value;
        CancelChildrenGrows(reg, tx1, trig, key, machine, states, regions[1..], cancelledBy);
        GrowsOn(tx, tx1, r.value);
    }
  }

  lemma {:induction false} StartChildGrows(
    reg: Registry, tx: Tx, trig: Trigger, parentKey: Key, path: seq<Step>, region: string, state: string, entry: int)
    requires parentKey.machine in reg
    ensures var r := StartChild(reg, tx, trig, parentKey, path, region, state, entry);
            r.Ok? ==> r.value.history == tx.history && GrowsAt(tx, r.value, trig.now)
    decreases MAX_MANAGED_DEPTH + 1 - |path|, 1, 0
  {
    var r := StartChild(reg, tx, trig, parentKey, path, region, state, entry);
    if r.Ok? {
      var sub := reg[parentKey.machine].ManagedSub(region, state).value;
      var link := Step(parentKey.machine, parentKey.id, region, state, entry);
      var childKey := ChildKey(sub, parentKey.id, state);
      var states := reg[sub.machineId].InitialStates();
      var child := NewEntity(states, map[], trig.now, Some(Instance(Active, |path| + 1, path, link, 1, None)));
      var tx1 := tx.(entities := tx.entities[childKey := child],
                     events := tx.events + [Started(childKey, |path| + 1, link)]);
      StartChildrenGrows(reg, tx1, trig, childKey, path + [link], states, SortedKeys(states.Keys));
      GrowsAtOn(tx, tx1, r.value, trig.now);
    }
  }

  lemma {:induction false} StartChildrenGrows(
    reg: Registry, tx: Tx, trig: Trigger, key: Key, path: seq<Step>, states: StateMap, regions: seq<string>)
    requires key.machine in reg
    requires forall r :: r in regions ==> r in states
    ensures var r := StartChildren(reg, tx, trig, key, path, states, regions);
            r.Ok? ==> r.value.history == tx.history && GrowsAt(tx, r.value, trig.now)
    decreases MAX_MANAGED_DEPTH + 1 - |path|, 2, |regions|
  {
    var r := StartChildren(reg, tx, trig, key, path, states, regions);
    if r.Ok? && regions != [] {
      if reg[key.machine].ManagedSub(regions[0], states[regions[0]]).Some? {
        StartChildGrows(reg, tx, trig, key, path, regions[0], states[regions[0]], 1);
        var tx1 := StartChild(reg, tx, trig, key, path, regions[0], states[regions[0]], 1).value;
        StartChildrenGrows(reg, tx1, trig, key, path, states, regions[1..]);
        GrowsAtOn(tx, tx1, r.value, trig.now);
      } else {
        StartChildrenGrows(reg, tx, trig, key, path, states, regions[1..]);
      }
    }
  }

  lemma CancelChildOfGrows(
    reg: Registry, tx: Tx, trig: Trigger, key: Key, region: string, state: string, reason: CancelReason,
    cancelledBy: RowRef)
    requires key.machine in reg
    ensures var r := CancelChildOf(reg, tx, trig, key, region, state, reason, cancelledBy);
            r.Ok? ==> GrowsAt(tx, r.value, trig.now)
  {
    match reg[key.machine].ManagedSub(region, state)
    case None =>
    case Some(sub) =>
      CancelSubtreeGrows(reg, tx, trig, ChildKey(sub, key.id, state), reason, cancelledBy);
      var r := CancelSubtree(reg, tx, trig, ChildKey(sub, key.id, state), reason, cancelledBy);
      if r.Ok? {
        NothingBorn(tx, r.value, trig.now);
      }
  }

  lemma {:induction false} ApplyChildLifecycleGrows(
    reg: Registry, tx: Tx, trig: Trigger, key: Key, path: seq<Step>, before: map<string, RegionEntry>,
    after: map<string, RegionEntry>, regions: seq<string>, ended: bool, cancelledBy: RowRef)
    requires key.machine in reg
    requires forall r :: r in regions ==> r in after
    ensures var r := ApplyChildLifecycle(reg, tx, trig, key, path, before, after, regions, ended, cancelledBy);
            r.Ok? ==> GrowsAt(tx, r.value, trig.now)
    decreases |regions|
  {
    var r := ApplyChildLifecycle(reg, tx, trig, key, path, before, after, regions, ended, cancelledBy);
    if r.Ok? && regions != [] {
      var r0 := regions[0];
      LifecycleOfRegionGrows(reg, tx, trig, key, path, before, after, r0, ended, cancelledBy);
      var tx1 := LifecycleOfRegion(reg, tx, trig, key, path, before, after, r0, ended, cancelledBy).value;
      ApplyChildLifecycleGrows(reg, tx1, trig, key, path, before, after, regions[1..], ended, cancelledBy);
      GrowsAtOn(tx, tx1, r.value, trig.now);
    }
  }

  lemma LifecycleOfRegionGrows(
    reg: Registry, tx: Tx, trig: Trigger, key: Key, path: seq<Step>, before: map<string, RegionEntry>,
    after: map<string, RegionEntry>, region: string, ended: bool, cancelledBy: RowRef)
    requires key.machine in reg && region in after
    ensures var r := LifecycleOfRegion(reg, tx, trig, key, path, before, after, region, ended, cancelledBy);
            r.Ok? ==> GrowsAt(tx, r.value, trig.now)
  {
    var r := LifecycleOfRegion(reg, tx, trig, key, path, before, after, region, ended, cancelledBy);
    if r.Ok? {
      if EntryChanged(before, after, region) {
        var tx1 := tx;
        if region in before {
          var reason := if ended then ParentCompleted else ParentExit;
          CancelChildOfGrows(reg, tx, trig, key, region, before[region].state, reason, cancelledBy);
          tx1 := CancelChildOf(reg, tx, trig, key, region, before[region].state, reason, cancelledBy).value;
        }
        if !ended && reg[key.machine].ManagedSub(region, after[region].state).Some? {
          StartChildGrows(reg, tx1, trig, key, path, region, after[region].state, after[region].entry);
          GrowsAtOn(tx, tx1, r.value, trig.now);
        }
      } else if ended {
        CancelChildOfGrows(reg, tx, trig, key, region, after[region].state, ParentCompleted, cancelledBy);
      }
    }
  }

  /** One row for each fired join, numbered, and naming the row that caused it. */
  ghost predicate JoinsRecorded(
    history: seq<Row>, from: nat, key: Key, version: int, cause: Identity, fired: seq<JoinFired>, timestamp: int,
    now: int)
  {
    && from + |fired| <= |history|
    && forall k {:trigger fired[k]} :: 0 <= k < |fired| ==>
         history[from + k] ==
           Row(key, Plain(fired[k].from), Plain(fired[k].targetState), JoinEvent, map[], fired[k].targetRegion,
               timestamp, now, JoinId(fired[k].targetRegion, version, k), JoinCause(cause, k))
  }

  /** A write appends its main row first, then those of its joins. */
  lemma {:induction false} WriteEntityGrows(
    reg: Registry, tx: Tx, trig: Trigger, key: Key, entity: Entity, spec: WriteSpec)
    requires key.machine in reg && Stored(tx, key, entity)
    ensures var r := WriteEntity(reg, tx, trig, key, entity, spec);
            r.Ok? ==>
              && GrowsAt(tx, r.value.0, trig.now)
              && |tx.history| < |r.value.0.history|
              && r.value.0.history[|tx.history|] == MainRow(key, spec, trig.now)
              && r.value.1 == RowRef(|tx.history| + 1, spec.identity)
              && JoinsRecorded(r.value.0.history, |tx.history| + 1, key, entity.version + 1, spec.identity, spec.joins,
                               spec.timestamp, trig.now)
    decreases ActiveKeys(tx.entities), 0
  {
    var r := WriteEntity(reg, tx, trig, key, entity, spec);
    if r.Ok? {
      OwnWriteEnds(reg, tx, trig.now, key, entity, spec);
      WriteOwnEffect(reg, tx, trig.now, key, entity, spec);
      var w := WriteOwn(reg, tx, trig.now, key, entity, spec).value;
      OwnWriteKept(reg, tx, trig.now, key, entity, spec, w);
      var before, after, regions := EffectiveEntries(entity), w.entries.regions, SortedKeys(w.entries.regions.Keys);
      ApplyChildLifecycleGrows(reg, w.tx, trig, key, entity.Path(), before, after, regions, w.completion.Some?, w.row);
      var tx1 := ApplyChildLifecycle(reg, w.tx, trig, key, entity.Path(), before, after, regions, w.completion.Some?,
                                     w.row).value;
      if w.completion.Some? {
        assert KeptAt(w.tx.entities, tx1.entities, key);
        CompletedAwaits(reg, tx, trig.now, key, entity, spec, w, tx1);
        CompleteParentGrows(reg, tx1, trig, key, Encode(spec.newStates), w.instance.value, w.completion.value, w.row);
        GrowsAtOn(w.tx, tx1, r.value.0, trig.now);
      }
      MainRowFirst(tx, w.tx, r.value.0, key, entity, spec, trig.now);
    }
  }

  ghost predicate WriteRecorded(tx: Tx, tx': Tx, key: Key, e: Entity, spec: WriteSpec, now: int) {
    && |tx.history| < |tx'.history|
    && tx'.history[|tx.history|] == MainRow(key, spec, now)
    && JoinsRecorded(tx'.history, |tx.history| + 1, key, e.version + 1, spec.identity, spec.joins, spec.timestamp, now)
  }

  /** What a ready write leaves, and what it appends. */
  lemma WholeWrite(reg: Registry, tx: Tx, trig: Trigger, key: Key, e: Entity, spec: WriteSpec)
    requires WriteReady(reg, tx, trig.now, key, e, spec)
    ensures key.machine in reg
    ensures var r := WriteEntity(reg, tx, trig, key, e, spec);
            if r.Ok? then
              && WriteEnds(reg, tx, r.value.0, key, e, spec, trig.now)
              && WriteRecorded(tx, r.value.0, key, e, spec, trig.now)
            else StartRefusal(r.error)
  {
    WriteEntityTree(reg, tx, trig, key, e, spec);
    WriteEntityGrows(reg, tx, trig, key, e, spec);
  }

  lemma OwnWriteKept(reg: Registry, tx: Tx, now: int, key: Key, e: Entity, spec: WriteSpec, w: OwnWrite)
    requires Stored(tx, key, e) && OwnEffect(reg, tx, now, key, e, spec, w)
    ensures AllKept(tx.entities, w.tx.entities)
  {
  }

  /** An instance that its own write completed awaits its parent's. */
  lemma CompletedAwaits(
    reg: Registry, tx: Tx, now: int, key: Key, e: Entity, spec: WriteSpec, w: OwnWrite, tx1: Tx)
    requires Stored(tx, key, e) && OwnEffect(reg, tx, now, key, e, spec, w) && w.completion.Some?
    requires key in tx1.entities && tx1.entities[key] == w.tx.entities[key]
    ensures w.instance.Some?
    ensures AwaitsParent(reg, tx1, key, Encode(spec.newStates), w.instance.value, w.completion.value, w.row)
  {
  }

  lemma MainRowFirst(tx: Tx, tx1: Tx, tx2: Tx, key: Key, e: Entity, spec: WriteSpec, now: int)
    requires tx1.history == tx.history + WriteRows(key, e, spec, now) && tx1.events == tx.events
    requires GrowsAt(tx1, tx2, now)
    requires AllKept(tx.entities, tx1.entities) && tx1.entities.Keys == tx.entities.Keys
    ensures GrowsAt(tx, tx2, now) && Grows(tx, tx1) && |tx.history| < |tx2.history| &&
            tx2.history[|tx.history|] == MainRow(key, spec, now)
    ensures JoinsRecorded(tx2.history, |tx.history| + 1, key, e.version + 1, spec.identity, spec.joins, spec.timestamp,
                          now)
  {
    NothingBorn(tx, tx1, now);
    GrowsAtOn(tx, tx1, tx2, now);
    var rows := WriteRows(key, e, spec, now);
    RowAppended(tx.history, rows, tx2.history, 0);
    forall k {:trigger spec.joins[k]} | 0 <= k < |spec.joins|
      ensures tx2.history[|tx.history| + 1 + k] ==
                JoinRow(key, spec.joins[k], e.version + 1, k, spec.identity, spec.timestamp, now)
    {
      RowAppended(tx.history, rows, tx2.history, k + 1);
    }
  }

  lemma RowAppended(history: seq<Row>, rows: seq<Row>, longer: seq<Row>, i: nat)
    requires history + rows <= longer && i < |rows|
    ensures longer[|history| + i] == rows[i]
  {
    assert (history + rows)[|history| + i] == rows[i];
  }

  /** The parent's row: from the compound state to the target, caused by the child's end and by what
      started the transaction; it names the entry that it leaves. */
  ghost predicate RowOfAdvance(
    row: Row, m: Machine, parent: Entity, trig: Trigger, child: Key, childState: Encoded, link: Step, target: string,
    end: RowRef)
    requires link.region in parent.states
  {
    var entry := EntryOf(parent, link.region);
    row == Row(ParentKey(link), Plain(link.state), Plain(target), SubComplete, map[],
               if m.regions == [] then "" else link.region, trig.timestamp, trig.now,
               SubId(link.region, link.state, entry.entry),
               SubCompleteCause(trig.eventType, trig.timestamp, link, entry.basis, entry.origin, child, childState,
                                end))
  }

  lemma {:induction false} CompleteParentGrows(
    reg: Registry, tx: Tx, trig: Trigger, child: Key, childState: Encoded, instance: Instance, target: string,
    end: RowRef)
    requires AwaitsParent(reg, tx, child, childState, instance, target, end)
    ensures var r := CompleteParent(reg, tx, trig, child, childState, instance, target, end);
            r.Ok? ==> GrowsAt(tx, r.value, trig.now)
    decreases ActiveKeys(tx.entities), 1
  {
    var r := CompleteParent(reg, tx, trig, child, childState, instance, target, end);
    if r.Ok? {
      var link := instance.link;
      var parentKey := ParentKey(link);
      var parent := tx.entities[parentKey];
      var cause := AdvanceCause(trig, link, EntryOf(parent, link.region), child, childState, end);
      var pushed := Finished(child, instance.depth, link, end, target, None);
      var tx1 := tx.(events := tx.events + [pushed]);
      var spec := AdvanceSpec(reg[link.machine], parent, link.region, link.state, target, trig.timestamp, cause);
      WriteEntityGrows(reg, tx1, trig, parentKey, parent, spec);
      var tx2 := WriteEntity(reg, tx1, trig, parentKey, parent, spec).value.0;
      var written := RowRef(|tx.history| + 1, spec.identity);
      var patched := Finished(child, instance.depth, link, end, target, Some(written));
      assert KeptAt(tx1.entities, tx2.entities, child);
      assert AdvancedBy(tx2.history, child, link, end, target, written);
      PatchKeeps(tx, tx2, pushed, patched);
      forall k ensures BornAt(tx.entities, r.value.entities, trig.now, k) {
        assert BornAt(tx1.entities, tx2.entities, trig.now, k);
      }
    }
  }

  /** The upward step's first row is the parent's. */
  lemma AdvanceRecorded(
    reg: Registry, tx: Tx, trig: Trigger, child: Key, childState: Encoded, instance: Instance, target: string,
    end: RowRef)
    ensures var r := CompleteParent(reg, tx, trig, child, childState, instance, target, end);
            r.Ok? ==>
              && |tx.history| < |r.value.history|
              && ParentKey(instance.link) in tx.entities && instance.link.machine in reg
              && instance.link.region in tx.entities[ParentKey(instance.link)].states
              && RowOfAdvance(r.value.history[|tx.history|], reg[instance.link.machine],
                              tx.entities[ParentKey(instance.link)], trig, child, childState, instance.link, target,
                              end)
  {
    var r := CompleteParent(reg, tx, trig, child, childState, instance, target, end);
    if r.Ok? {
      var link := instance.link;
      var parent := tx.entities[ParentKey(link)];
      var cause := AdvanceCause(trig, link, EntryOf(parent, link.region), child, childState, end);
      WriteEntityGrows(reg, tx.(events := tx.events + [Finished(child, instance.depth, link, end, target, None)]), trig,
                       ParentKey(link), parent,
                       AdvanceSpec(reg[link.machine], parent, link.region, link.state, target, trig.timestamp, cause));
    }
  }

  lemma PatchKeeps(tx: Tx, tx2: Tx, pushed: InstanceEvent, patched: InstanceEvent)
    requires tx.history <= tx2.history && tx.events + [pushed] <= tx2.events && AllKept(tx.entities, tx2.entities)
    requires EventTrue(tx2.entities, tx2.history, patched) && EventsTrue(tx2, |tx.events| + 1)
    ensures tx2.events[|tx.events|] == pushed
    ensures Grows(tx, tx2.(events := tx2.events[|tx.events| := patched]))
  {
    var tx3 := tx2.(events := tx2.events[|tx.events| := patched]);
    forall i | |tx.events| <= i < |tx3.events| ensures TrueAt(tx3, i) {
      if i > |tx.events| {
        assert TrueAt(tx2, i);
      }
    }
  }

  // ---------------------------------------------------------------- steps and runs

  lemma CreateGrows(reg: Registry, tx: Tx, trig: Trigger, key: Key, context: Context)
    requires key.machine in reg
    ensures var r := CreateRoot(reg, tx, trig, key, context); r.Ok? ==> GrowsAt(tx, r.value, trig.now)
  {
    if key !in tx.entities {
      var states := reg[key.machine].InitialStates();
      var e := NewEntity(states, context, trig.now, None);
      var tx1 := tx.(entities := tx.entities[key := e]);
      StartChildrenGrows(reg, tx1, trig, key, [], states, SortedKeys(states.Keys));
      var r := CreateRoot(reg, tx, trig, key, context);
      if r.Ok? {
        GrowsAtOn(tx, tx1, r.value, trig.now);
      }
    }
  }

  lemma ServeTxGrows(reg: Registry, db: Db, request: Request)
    requires WellFormedRegistry(reg) && Consistent(reg, db)
    ensures var r := ServeTx(reg, db, request);
            r.Ok? && r.value.Some? ==> GrowsAt(Begin(db), r.value.value, request.clock)
  {
    if request.key.machine in reg {
      if request.Create? {
        CreateGrows(reg, Begin(db), TriggerOf(request), request.key, request.context);
      } else {
        RequestWrites(reg, db, request);
        var answer := ServeTx(reg, db, request);
        if answer.Ok? && answer.value.Some? {
          var h, spec :| WriteGives(reg, db, request, h, spec, Ok(answer.value.value));
          WriteEntityGrows(reg, Begin(db), TriggerOf(request), h, db.entities[h], spec);
        }
      }
    }
  }

  lemma ServeGrows(reg: Registry, db: Db, request: Request)
    requires WellFormedRegistry(reg) && Consistent(reg, db)
    ensures db.history <= Serve(reg, db, request).history
    ensures AllKept(db.entities, Serve(reg, db, request).entities)
  {
    ServeTxGrows(reg, db, request);
  }

  /** What a commit's events say is so in the store it leaves: the instance and its place, the row that
      ended it, and for a completion the parent's row that it caused. */
  lemma CommitLogTrue(reg: Registry, run: seq<Served>, n: nat, event: InstanceEvent)
    requires WellFormedRegistry(reg) && IsRun(reg, run) && n < |run|
    ensures var db' := StoreAt(run, n + 1);
            run[n].Commits() && event in run[n].Committed().events ==>
              EventTrue(db'.entities, db'.history, event)
  {
    ReachableConsistent(reg, run, n);
    assert ServedAt(reg, run, n);
    ServeTxGrows(reg, StoreAt(run, n), run[n].request);
    if run[n].Commits() && event in run[n].Committed().events {
      var tx := run[n].Committed();
      var i :| 0 <= i < |tx.events| && tx.events[i] == event;
      assert TrueAt(tx, i);
    }
  }

  lemma {:induction false} RunGrows(reg: Registry, run: seq<Served>, n: nat, m: nat)
    requires WellFormedRegistry(reg) && IsRun(reg, run) && n <= m <= |run|
    ensures StoreAt(run, n).history <= StoreAt(run, m).history
    ensures AllKept(StoreAt(run, n).entities, StoreAt(run, m).entities)
    decreases m
  {
    if n < m {
      RunGrows(reg, run, n, m - 1);
      ReachableConsistent(reg, run, m - 1);
      assert ServedAt(reg, run, m - 1);
      ServeGrowsOn(reg, StoreAt(run, n), StoreAt(run, m - 1), run[m - 1].request);
    }
  }

  lemma ServeGrowsOn(reg: Registry, before: Db, db: Db, request: Request)
    requires WellFormedRegistry(reg) && Consistent(reg, db)
    requires before.history <= db.history && AllKept(before.entities, db.entities)
    ensures before.history <= Serve(reg, db, request).history
    ensures AllKept(before.entities, Serve(reg, db, request).entities)
  {
    var after := Serve(reg, db, request);
    ServeGrows(reg, db, request);
    AllKeptOn(before.entities, db.entities, after.entities);
  }

  /** However many requests later, a region is still in the entry instance that it was in, its entry
      time included, or in one that began after. Versions never fall, and an ended instance never
      changes again. */
  lemma EntriesNeverReturn(reg: Registry, run: seq<Served>, n: nat, m: nat, key: Key, region: string)
    requires WellFormedRegistry(reg) && IsRun(reg, run) && n <= m <= |run|
    ensures var before, after := StoreAt(run, n), StoreAt(run, m);
            key in before.entities ==>
              && key in after.entities
              && var e, e' := before.entities[key], after.entities[key];
                 && e.version <= e'.version
                 && (!e.Live() ==> e' == e)
                 && (region in e'.states ==>
                       || (region in e.states && EntryOf(e', region) == EntryOf(e, region))
                       || e.version < EntryOf(e', region).entry)
  {
    RunGrows(reg, run, n, m);
    var before, after := StoreAt(run, n), StoreAt(run, m);
    assert KeptAt(before.entities, after.entities, key);
    if key in before.entities {
      KeptEntry(before.entities[key], after.entities[key], region);
    }
  }

  lemma KeptEntry(e: Entity, e': Entity, region: string)
    requires Kept(e, e')
    ensures e.version <= e'.version && (!e.Live() ==> e' == e)
    ensures region in e'.states ==> EntryStays(e, e', region)
  {
  }
}
