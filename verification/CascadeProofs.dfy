/** A write and its completion cascade: the tree is restored, only the written entity's tree is
    touched, and only a start can refuse it. */
module CascadeProofs {
  import opened Names
  import opened Models
  import opened Engine
  import opened Store
  import opened Lifecycle
  import opened Ledger
  import opened WriteProofs
  import opened LedgerProofs
  import opened Tree
  import opened CancelProofs
  import opened StartProofs
  import opened TreeProofs

  // ---------------------------------------------------------------- the write itself

  /** The relation between an entity and its row after one write of its own. */
  ghost predicate Moved(e: Entity, e': Entity, region: string) {
    && e'.states.Keys == e.states.Keys
    && e'.version == e.version + 1
    && e'.Path() == e.Path()
    && region in e.states
    && (e.instance.None? ==> e'.instance.None?)
    && (e.instance.Some? ==> e'.instance.Some? && e'.instance.value.link == e.instance.value.link
                              && e'.instance.value.above == e.instance.value.above)
    && (forall r :: r in e.states ==> EntryKept(e, e', r) || EntryAdvanced(e, e', r))
    && EntryAdvanced(e, e', region)
  }

  /** Where the tree is open after the entity ended: at its own place under its parent. */
  function HoleAbove(e: Entity): Option<Place> {
    if e.Live() then None
    else if e.instance.Some? then Some(Place(ParentKey(e.instance.value.link), e.instance.value.link.region))
    else None
  }

  lemma MidAfterWrite(
    reg: Registry, entities: map<Key, Entity>, key: Key, was: Entity, e': Entity, region: string, todo: seq<string>)
    requires key in entities && entities[key] == was && was.Live() && DocumentCurrent(was)
    requires forall k :: k in entities ==> InstanceOk(reg, k, entities[k])
    requires TreeOk(reg, entities, Some(Place(key, region)))
    requires Moved(was, e', region)
    requires forall r :: r in todo <==> r in was.states
    ensures MidTree(reg, entities[key := e'], key, was, !e'.Live(), HoleAbove(e'), todo)
  {
    var hole, hole', ended := Some(Place(key, region)), HoleAbove(e'), !e'.Live();
    var entities' := entities[key := e'];
    assert Up(reg, entities, key);
    forall k, r | k in entities' && r in entities'[k].states && !(k == key && r in todo && Left(e', was, ended, r))
      ensures DownAt(reg, entities', hole', k, r)
    {
      assert DownAt(reg, entities, hole, k, r);
      MidDownAfterWrite(reg, entities, key, was, e', region, todo, k, r);
    }
    forall c | c in entities' ensures UpOrOrphan(reg, entities', key, was, ended, todo, c) {
      assert Up(reg, entities, c);
      MidUpAfterWrite(reg, entities, key, was, e', region, todo, c);
    }
    forall r | r in todo ensures LeftChild(reg, entities', key, was, ended, r) {
      assert DownAt(reg, entities, hole, key, r);
      LeftAfterWrite(reg, entities, key, was, e', region, r);
    }
  }

  lemma LeftAfterWrite(
    reg: Registry, entities: map<Key, Entity>, key: Key, was: Entity, e': Entity, region: string, r: string)
    requires key in entities && entities[key] == was && was.Live() && r in was.states
    requires forall k :: k in entities ==> InstanceOk(reg, k, entities[k])
    requires Moved(was, e', region) && DownAt(reg, entities, Some(Place(key, region)), key, r)
    ensures LeftChild(reg, entities[key := e'], key, was, !e'.Live(), r)
  {
    if InManaged(reg, key, was, r) {
      assert |StepOf(key, was, r).entity| < |ChildOf(reg, key, was, r).id|;
    }
  }

  lemma MidDownAfterWrite(
    reg: Registry, entities: map<Key, Entity>, key: Key, was: Entity, e': Entity, region: string, todo: seq<string>,
    k: Key, r: string)
    requires key in entities && entities[key] == was && was.Live() && DocumentCurrent(was)
    requires Moved(was, e', region)
    requires forall r :: r in todo <==> r in was.states
    requires k in entities && r in entities[k].states && !(k == key && r in todo && Left(e', was, !e'.Live(), r))
    requires DownAt(reg, entities, Some(Place(key, region)), k, r)
    ensures DownAt(reg, entities[key := e'], HoleAbove(e'), k, r)
  {
    var entities' := entities[key := e'];
    if k == key {
      assert EntryCurrent(was, r) && EntryCurrent(was, region);
      assert EntryKept(was, e', r);
    }
  }

  lemma MidUpAfterWrite(
    reg: Registry, entities: map<Key, Entity>, key: Key, was: Entity, e': Entity, region: string, todo: seq<string>,
    c: Key)
    requires key in entities && entities[key] == was && was.Live() && DocumentCurrent(was)
    requires Moved(was, e', region)
    requires forall r :: r in todo <==> r in was.states
    requires c in entities && Up(reg, entities, c)
    ensures UpOrOrphan(reg, entities[key := e'], key, was, !e'.Live(), todo, c)
  {
    var entities' := entities[key := e'];
    if entities'[c].IsActiveChild() {
      assert entities[c].IsActiveChild();
      var i := entities[c].instance.value;
      var parent := ParentKey(i.link);
      if parent == key {
        assert |entities[c].Path()| == |was.Path()| + 1;
        assert c != key;
        assert EntryCurrent(was, i.link.region);
        assert EntryKept(was, e', i.link.region) || EntryAdvanced(was, e', i.link.region);
      }
    }
  }

  lemma MidEnds(reg: Registry, entities: map<Key, Entity>, key: Key, was: Entity, ended: bool, hole: Option<Place>)
    requires MidTree(reg, entities, key, was, ended, hole, [])
    ensures TreeOk(reg, entities, hole)
  {
    forall c | c in entities ensures Up(reg, entities, c) {
      assert UpOrOrphan(reg, entities, key, was, ended, [], c);
    }
  }

  // ---------------------------------------------------------------- the write cannot fail

  /** No row of the entity has the main row's identity yet. */
  ghost predicate FreshIdentity(history: seq<Row>, key: Key, identity: Identity) {
    !IdentityTaken(history, key, identity)
  }

  lemma {:induction false} InsertJoinRowsWorks(
    tx: Tx, key: Key, joins: seq<JoinFired>, step: nat, version: int, cause: Identity, timestamp: int, now: int)
    requires step <= |joins|
    requires forall i :: 0 <= i < |tx.history| && tx.history[i].entity == key && tx.history[i].identity.JoinId? ==>
               tx.history[i].identity.entry < version || tx.history[i].identity.step < step
    ensures InsertJoinRows(tx, key, joins, step, version, cause, timestamp, now).Ok?
    decreases |joins| - step
  {
    if step < |joins| {
      var row := JoinRow(key, joins[step], version, step, cause, timestamp, now);
      var tx1 := InsertHistory(tx, row).value;
      forall i | 0 <= i < |tx1.history| && tx1.history[i].entity == key && tx1.history[i].identity.JoinId?
        ensures tx1.history[i].identity.entry < version || tx1.history[i].identity.step < step + 1
      {
        if i < |tx.history| {
          assert tx1.history[i] == tx.history[i];
        }
      }
      InsertJoinRowsWorks(tx1, key, joins, step + 1, version, cause, timestamp, now);
    }
  }

  /** Earlier joins of the entity entered earlier versions. */
  lemma JoinsEarlier(entities: map<Key, Entity>, history: seq<Row>, key: Key, row: Row)
    requires RowsOk(entities, history) && key in entities && !row.identity.JoinId?
    ensures var h := history + [row];
            forall i :: 0 <= i < |h| && h[i].entity == key && h[i].identity.JoinId? ==>
              h[i].identity.entry < entities[key].version + 1
  {
    var h := history + [row];
    forall i | 0 <= i < |h| && h[i].entity == key && h[i].identity.JoinId?
      ensures h[i].identity.entry < entities[key].version + 1
    {
      assert i < |history| && h[i] == history[i];
      assert RowOkAt(entities, history, i);
    }
  }

  lemma WriteOwnWorks(reg: Registry, tx: Tx, now: int, key: Key, e: Entity, spec: WriteSpec, pending: Option<Key>)
    requires LedgerOk(reg, tx.entities, tx.history, pending)
    requires Stored(tx, key, e) && e.Live() && SpecOk(reg, key, e, spec)
    requires FreshIdentity(tx.history, key, spec.identity)
    ensures WriteOwn(reg, tx, now, key, e, spec).Ok?
  {
    assert EntityOkAt(reg, tx.entities, tx.history, key);
    WriteRowsWork(tx, now, key, e, spec);
    WriteRowsKeep(tx, key, spec, e.version + 1, now);
  }

  lemma WriteRowsWork(tx: Tx, now: int, key: Key, e: Entity, spec: WriteSpec)
    requires RowsOk(tx.entities, tx.history) && Stored(tx, key, e)
    requires FreshIdentity(tx.history, key, spec.identity) && !spec.identity.JoinId?
    ensures InsertWriteRows(tx, key, spec, e.version + 1, now).Ok?
  {
    var main := MainRow(key, spec, now);
    var tx1 := tx.(history := tx.history + [main]);
    JoinsEarlier(tx.entities, tx.history, key, main);
    InsertJoinRowsWorks(tx1, key, spec.joins, 0, e.version + 1, spec.identity, spec.timestamp, now);
  }

  // ---------------------------------------------------------------- what a cascade may touch

  /** The root of the tree an entity belongs to. */
  function RootOf(key: Key, e: Entity): Key {
    if e.Path() == [] then key else ParentKey(e.Path()[0])
  }

  /** Live entities of one tree were written once; new ones were started in that tree. */
  ghost predicate TouchedOnce(entities: map<Key, Entity>, entities': map<Key, Entity>, root: Key) {
    forall k {:trigger TouchedAt(entities, entities', root, k)} :: TouchedAt(entities, entities', root, k)
  }

  ghost predicate TouchedAt(entities: map<Key, Entity>, entities': map<Key, Entity>, root: Key, k: Key) {
    if k in entities then
      && k in entities'
      && (entities'[k] == entities[k] || (
            && entities[k].Live()
            && entities'[k].version == entities[k].version + 1
            && entities'[k].Path() == entities[k].Path()
            && RootOf(k, entities[k]) == root))
    else
      k in entities' ==>
        entities'[k].IsActiveChild() && entities'[k].version == 1 && entities'[k].context == map[] &&
            RootOf(k, entities'[k]) == root
  }

  /** Every entity there was keeps its context, except those in `except`. */
  ghost predicate ContextsKept(entities: map<Key, Entity>, entities': map<Key, Entity>, except: set<Key>) {
    forall k {:trigger ContextKept(entities, entities', k)} ::
      k in entities && k !in except ==> ContextKept(entities, entities', k)
  }

  ghost predicate ContextKept(entities: map<Key, Entity>, entities': map<Key, Entity>, k: Key) {
    k in entities && k in entities' && entities'[k].context == entities[k].context
  }

  /** Entities nearer to the root than `depth` are unchanged. */
  ghost predicate ShorterKept(entities: map<Key, Entity>, entities': map<Key, Entity>, depth: nat) {
    forall k {:trigger entities'[k]} :: k in entities && |entities[k].Path()| < depth ==>
      k in entities' && entities'[k] == entities[k]
  }

  /** Every changed entity has ended, and is at or below `base`. */
  ghost predicate ChangedEnded(entities: map<Key, Entity>, entities': map<Key, Entity>, base: seq<Step>)
    requires entities'.Keys == entities.Keys
  {
    forall k {:trigger entities'[k]} ::
      k in entities && entities'[k] != entities[k] ==> !entities'[k].Live() && base <= entities[k].Path()
  }

  /** `top` is the topmost changed entity: every other changed one is below it and has ended, and every
      new one is below it. */
  ghost predicate TopOnly(entities: map<Key, Entity>, entities': map<Key, Entity>, top: Key) {
    && top in entities && top in entities'
    && entities'[top] != entities[top] && entities'[top].Live()
    && forall k {:trigger TopAt(entities, entities', top, k)} :: TopAt(entities, entities', top, k)
  }

  ghost predicate TopAt(entities: map<Key, Entity>, entities': map<Key, Entity>, top: Key, k: Key)
    requires top in entities
  {
    if k in entities then
      k in entities' && (entities'[k] != entities[k] ==>
                           entities[top].Path() <= entities[k].Path() && (entities'[k].Live() ==> k == top))
    else
      k in entities' ==> entities[top].Path() < entities'[k].Path()
  }

  /** There is a topmost changed entity, the only one still live. */
  ghost predicate OneTop(entities: map<Key, Entity>, entities': map<Key, Entity>) {
    exists top {:trigger TopOnly(entities, entities', top)} :: TopOnly(entities, entities', top)
  }

  /** The entity's own write and its children's lifecycle. */
  lemma TouchedByWrite(
    entities: map<Key, Entity>, entities': map<Key, Entity>, key: Key, was: Entity, e': Entity, region: string,
    regions: seq<string>)
    requires key in entities && entities[key] == was && was.Live() && Moved(was, e', region)
    requires OnlyBelow(entities[key := e'], entities', key, was.Path(), regions, !e'.Live())
    ensures TouchedOnce(entities, entities', RootOf(key, was))
    ensures !e'.Live() ==> entities'.Keys == entities.Keys && ChangedEnded(entities, entities', was.Path())
    ensures ShorterKept(entities, entities', |was.Path()|) && ContextsKept(entities, entities', {key})
    ensures e'.Live() ==> TopOnly(entities, entities', key)
    ensures key in entities' && entities'[key] == e'
  {
    var entities1 := entities[key := e'];
    assert Change(entities1, entities', key, was.Path(), regions, !e'.Live(), key);
    forall k
      ensures TouchedAt(entities, entities', RootOf(key, was), k)
      ensures !e'.Live() ==> (k in entities' <==> k in entities)
      ensures !e'.Live() && k in entities && entities'[k] != entities[k] ==>
                !entities'[k].Live() && was.Path() <= entities[k].Path()
      ensures k in entities && |entities[k].Path()| < |was.Path()| ==> entities'[k] == entities[k]
      ensures k in entities && k != key ==> entities'[k].context == entities[k].context
      ensures e'.Live() ==> TopAt(entities, entities', key, k)
    {
      assert Change(entities1, entities', key, was.Path(), regions, !e'.Live(), k);
    }
  }

  /** A completed child's write, then its parent's: no entity twice. */
  lemma TouchedCompose(entities: map<Key, Entity>, entities1: map<Key, Entity>, entities2: map<Key, Entity>, root: Key)
    requires TouchedOnce(entities, entities1, root) && TouchedOnce(entities1, entities2, root)
    requires entities1.Keys == entities.Keys && ChangedEnded(entities, entities1, [])
    ensures TouchedOnce(entities, entities2, root)
  {
    forall k ensures TouchedAt(entities, entities2, root, k) {
      assert TouchedAt(entities, entities1, root, k) && TouchedAt(entities1, entities2, root, k);
    }
  }

  /** A completed child's write, then its parent's: whatever the first changed is not live any more,
      and the parent is above it. */
  lemma TopCompose(
    entities: map<Key, Entity>, entities1: map<Key, Entity>, entities2: map<Key, Entity>, root: Key, base: seq<Step>,
    parent: Key)
    requires TouchedOnce(entities, entities1, root) && TouchedOnce(entities1, entities2, root) &&
             OneTop(entities1, entities2)
    requires entities1.Keys == entities.Keys && ChangedEnded(entities, entities1, base)
    requires parent in entities1 && parent in entities2 && entities2[parent] != entities1[parent]
    requires entities1[parent].Path() <= base
    ensures OneTop(entities, entities2)
  {
    var top :| TopOnly(entities1, entities2, top);
    assert TouchedAt(entities, entities1, root, top) && TouchedAt(entities1, entities2, root, top);
    assert TopAt(entities1, entities2, top, parent);
    PrefixTransitive(entities1[top].Path(), entities1[parent].Path(), base);
    forall k ensures TopAt(entities, entities2, top, k) {
      assert TouchedAt(entities, entities1, root, k) && TouchedAt(entities1, entities2, root, k);
      assert TopAt(entities1, entities2, top, k);
      if k in entities && entities1[k] != entities[k] {
        PrefixTransitive(entities1[top].Path(), base, entities[k].Path());
      }
    }
    assert TopOnly(entities, entities2, top);
  }

  lemma RootOfParent(reg: Registry, entities: map<Key, Entity>, child: Key)
    requires Up(reg, entities, child) && child in entities && entities[child].IsActiveChild()
    ensures var parent := ParentKey(entities[child].instance.value.link);
            RootOf(parent, entities[parent]) == RootOf(child, entities[child])
  {
    var i := entities[child].instance.value;
    var parent := entities[ParentKey(i.link)];
    if parent.Path() == [] {
      assert entities[child].Path() == [i.link];
    } else {
      assert entities[child].Path()[0] == parent.Path()[0];
    }
  }

  // ---------------------------------------------------------------- the cascade

  /** What a write of one entity did to its own row. */
  ghost predicate WroteOwn(e: Entity, e': Entity, spec: WriteSpec, now: int) {
    && e'.states == spec.newStates
    && e'.context == (if spec.context.Some? then spec.context.value else e.context)
    && e'.version == e.version + 1
    && e'.createdAt == e.createdAt && e'.updatedAt == now
  }

  /** A committed write: the invariant holds again and one tree was touched. */
  ghost predicate Settled(reg: Registry, tx: Tx, tx': Tx, root: Key) {
    && LedgerOk(reg, tx'.entities, tx'.history, None)
    && TreeOk(reg, tx'.entities, None)
    && TouchedOnce(tx.entities, tx'.entities, root)
    && OneTop(tx.entities, tx'.entities)
  }

  /** What a caller of the write path guarantees. */
  ghost predicate WriteReady(reg: Registry, tx: Tx, now: int, key: Key, e: Entity, spec: WriteSpec) {
    && WellFormedRegistry(reg)
    && LedgerOk(reg, tx.entities, tx.history, CitedBy(spec))
    && Stored(tx, key, e) && e.Live()
    && TreeOk(reg, tx.entities, Some(Place(key, spec.region)))
    && SpecOk(reg, key, e, spec)
    && FreshIdentity(tx.history, key, spec.identity)
    && (CitedBy(spec).Some? ==>
          Cites(reg, MainRow(key, spec, now), CitedBy(spec).value, tx.entities[CitedBy(spec).value]))
  }

  /** The state between an entity's own write and its parent's. */
  ghost predicate OwnDone(reg: Registry, tx: Tx, tx1: Tx, key: Key, e: Entity, w: OwnWrite) {
    && LedgerOk(reg, tx1.entities, tx1.history, PendingAfter(key, w))
    && key in tx1.entities && key in w.tx.entities && tx1.entities[key] == w.tx.entities[key] &&
       tx1.entities[key].instance == w.instance
    && TreeOk(reg, tx1.entities, HoleAbove(tx1.entities[key]))
    && TouchedOnce(tx.entities, tx1.entities, RootOf(key, e))
    && ShorterKept(tx.entities, tx1.entities, |e.Path()|)
    && ContextsKept(tx.entities, tx1.entities, {key})
    && (w.completion.Some? <==> !tx1.entities[key].Live())
    && (w.completion.None? ==> TopOnly(tx.entities, tx1.entities, key))
    && (w.completion.Some? ==>
          && tx1.entities.Keys == tx.entities.Keys
          && ChangedEnded(tx.entities, tx1.entities, e.Path()))
  }

  /** The own write, before any lifecycle: the entity has moved, and the regions are all still to visit. */
  ghost predicate OwnMoved(reg: Registry, tx: Tx, now: int, key: Key, e: Entity, spec: WriteSpec, w: OwnWrite) {
    && key in w.tx.entities && w.tx.entities == tx.entities[key := w.tx.entities[key]]
    && LedgerOk(reg, w.tx.entities, w.tx.history, PendingAfter(key, w))
    && w.entries.regions.Keys == e.states.Keys
    && var e' := w.tx.entities[key];
       && Moved(e, e', spec.region)
       && WroteOwn(e, e', spec, now)
       && e'.instance == w.instance
       && EntriesOf(e', e, EffectiveEntries(e), w.entries.regions)
       && (w.completion.Some? <==> !e'.Live())
       && MidTree(reg, w.tx.entities, key, e, !e'.Live(), HoleAbove(e'), SortedKeys(e.states.Keys))
  }

  lemma OwnWriteMoves(reg: Registry, tx: Tx, now: int, key: Key, e: Entity, spec: WriteSpec)
    requires WriteReady(reg, tx, now, key, e, spec)
    ensures var r := WriteOwn(reg, tx, now, key, e, spec); r.Ok? && OwnMoved(reg, tx, now, key, e, spec, r.value)
  {
    WriteOwnWorks(reg, tx, now, key, e, spec, CitedBy(spec));
    WriteOwnEffect(reg, tx, now, key, e, spec);
    var w := WriteOwn(reg, tx, now, key, e, spec).value;
    WriteOwnLedger(reg, tx, now, key, e, spec, w);
    EffectMoves(reg, tx, now, key, e, spec, w);
  }

  lemma EffectMoves(reg: Registry, tx: Tx, now: int, key: Key, e: Entity, spec: WriteSpec, w: OwnWrite)
    requires WriteReady(reg, tx, now, key, e, spec) && OwnEffect(reg, tx, now, key, e, spec, w)
    ensures var e' := w.tx.entities[key];
            && Moved(e, e', spec.region)
            && e'.instance == w.instance
            && EntriesOf(e', e, EffectiveEntries(e), w.entries.regions)
            && (w.completion.Some? <==> !e'.Live())
            && MidTree(reg, w.tx.entities, key, e, !e'.Live(), HoleAbove(e'), SortedKeys(e.states.Keys))
  {
    assert EntityOkAt(reg, tx.entities, tx.history, key);
    WrittenMoves(reg, key, e, spec, w.row, w.completion, now);
    AllInstancesOk(reg, tx.entities, tx.history, CitedBy(spec));
    MidAfterWrite(reg, tx.entities, key, e, w.tx.entities[key], spec.region, SortedKeys(e.states.Keys));
  }

  lemma WrittenMoves(
    reg: Registry, key: Key, e: Entity, spec: WriteSpec, row: RowRef, completion: Option<string>, now: int)
    requires SpecOk(reg, key, e, spec) && EntityOk(reg, key, e) && e.Live()
    requires CompletionOf(reg, e.instance, spec.newStates) == Ok(completion)
    ensures var entries := AdvanceEntries(EffectiveEntries(e), spec.newStates, WriteEntered(e, spec, row.row),
                                          e.version + 1, now);
            var e' := WrittenEntity(e, spec, entries, EndInstance(e.instance, completion, row), now);
            && Moved(e, e', spec.region)
            && EntriesOf(e', e, EffectiveEntries(e), entries.regions)
            && (completion.Some? <==> !e'.Live())
  {
    var entries := AdvanceEntries(EffectiveEntries(e), spec.newStates, WriteEntered(e, spec, row.row), e.version + 1,
                                  now);
    var instance := EndInstance(e.instance, completion, row);
    WrittenEntries(reg, key, e, spec, row.row, instance, now);
    MovedFrom(e, WrittenEntity(e, spec, entries, instance, now), spec.region, entries.regions);
  }

  lemma MovedFrom(e: Entity, e': Entity, region: string, regions: map<string, RegionEntry>)
    requires DocumentCurrent(e) && region in e.states
    requires e'.states.Keys == e.states.Keys && e'.version == e.version + 1 && regions == EffectiveEntries(e')
    requires forall r :: r in e.states ==> EntryKept(e, e', r) || EntryAdvanced(e, e', r)
    requires EntryAdvanced(e, e', region)
    requires e.instance.None? <==> e'.instance.None?
    requires e.instance.Some? ==>
               e'.instance.value.link == e.instance.value.link && e'.instance.value.above == e.instance.value.above
    ensures Moved(e, e', region) && EntriesOf(e', e, EffectiveEntries(e), regions)
  {
    assert forall r :: r in e.states ==> EntryCurrent(e, r);
  }

  lemma OwnLifecycle(reg: Registry, tx: Tx, trig: Trigger, key: Key, e: Entity, spec: WriteSpec)
    requires WriteReady(reg, tx, trig.now, key, e, spec)
    ensures key.machine in reg && WriteOwn(reg, tx, trig.now, key, e, spec).Ok?
    ensures var w := WriteOwn(reg, tx, trig.now, key, e, spec).value;
            var r := ApplyChildLifecycle(reg, w.tx, trig, key, e.Path(), EffectiveEntries(e), w.entries.regions,
                                         SortedKeys(w.entries.regions.Keys), w.completion.Some?, w.row);
            if r.Ok? then OwnDone(reg, tx, r.value, key, e, w) && WroteOwn(e, r.value.entities[key], spec, trig.now)
            else StartRefusal(r.error)
  {
    OwnWriteMoves(reg, tx, trig.now, key, e, spec);
    var w := WriteOwn(reg, tx, trig.now, key, e, spec).value;
    LifecycleAfterWrite(reg, tx, trig, key, e, spec, w);
  }

  lemma LifecycleAfterWrite(reg: Registry, tx: Tx, trig: Trigger, key: Key, e: Entity, spec: WriteSpec, w: OwnWrite)
    requires WriteReady(reg, tx, trig.now, key, e, spec) && OwnMoved(reg, tx, trig.now, key, e, spec, w)
    ensures var r := ApplyChildLifecycle(reg, w.tx, trig, key, e.Path(), EffectiveEntries(e), w.entries.regions,
                                         SortedKeys(w.entries.regions.Keys), w.completion.Some?, w.row);
            if r.Ok? then OwnDone(reg, tx, r.value, key, e, w) else StartRefusal(r.error)
  {
    var e' := w.tx.entities[key];
    var regions := SortedKeys(e.states.Keys);
    SortedKeysOrder(e.states.Keys);
    ApplyChildLifecycleTree(reg, w.tx, trig, key, e, EffectiveEntries(e), w.entries.regions, regions, !e'.Live(),
                            HoleAbove(e'),
                            w.row, PendingAfter(key, w));
    var r := ApplyChildLifecycle(reg, w.tx, trig, key, e.Path(), EffectiveEntries(e), w.entries.regions, regions,
                                 !e'.Live(), w.row);
    if r.Ok? {
      MidEnds(reg, r.value.entities, key, e, !e'.Live(), HoleAbove(e'));
      TouchedByWrite(tx.entities, r.value.entities, key, e, e', spec.region, regions);
    }
  }

  /** What a ready write with its cascade leaves. */
  ghost predicate WriteEnds(reg: Registry, tx: Tx, tx': Tx, key: Key, e: Entity, spec: WriteSpec, now: int) {
    && Settled(reg, tx, tx', RootOf(key, e))
    && key in tx'.entities && WroteOwn(e, tx'.entities[key], spec, now)
    && ContextsKept(tx.entities, tx'.entities, {key})
  }

  /** What the upward step leaves: the parent has moved to `target`, along its joins, and no entity's
      context has changed. */
  ghost predicate AdvanceEnds(reg: Registry, tx: Tx, tx': Tx, instance: Instance, target: string) {
    var link, parent := instance.link, ParentKey(instance.link);
    && parent in tx.entities && parent in tx'.entities && link.machine in reg
    && link.region in tx.entities[parent].states
    && Settled(reg, tx, tx', RootOf(parent, tx.entities[parent]))
    && tx'.entities[parent].version == tx.entities[parent].version + 1
    && ContextsKept(tx.entities, tx'.entities, {})
    && var moved := tx.entities[parent].states[link.region := target];
       tx'.entities[parent].states == ApplyFired(moved, JoinCascade(reg[link.machine].joins, moved, 10))
  }

  lemma {:induction false} WriteEntityTree(
    reg: Registry, tx: Tx, trig: Trigger, key: Key, entity: Entity, spec: WriteSpec)
    requires WriteReady(reg, tx, trig.now, key, entity, spec)
    ensures match WriteEntity(reg, tx, trig, key, entity, spec)
            case Ok(w) => WriteEnds(reg, tx, w.0, key, entity, spec, trig.now)
            case Err(error) => StartRefusal(error)
    decreases ActiveKeys(tx.entities), 0
  {
    OwnWriteEnds(reg, tx, trig.now, key, entity, spec);
    OwnLifecycle(reg, tx, trig, key, entity, spec);
    var w := WriteOwn(reg, tx, trig.now, key, entity, spec).value;
    var own := ApplyChildLifecycle(reg, w.tx, trig, key, entity.Path(), EffectiveEntries(entity), w.entries.regions,
                                   SortedKeys(w.entries.regions.Keys), w.completion.Some?, w.row);
    if own.Ok? && w.completion.Some? {
      CompletionAwaits(reg, tx, trig.now, key, entity, spec, own.value, w);
      CompleteParentTree(reg, own.value, trig, key, Encode(spec.newStates), w.instance.value, w.completion.value,
                         w.row);
      var r := CompleteParent(reg, own.value, trig, key, Encode(spec.newStates), w.instance.value, w.completion.value,
                              w.row);
      if r.Ok? {
        EndsAbove(reg, tx, own.value, r.value, key, entity, spec, w, trig.now);
      }
    }
  }

  /** The own write and its children's lifecycle, then the upward step. */
  lemma EndsAbove(
    reg: Registry, tx: Tx, tx1: Tx, tx2: Tx, key: Key, e: Entity, spec: WriteSpec, w: OwnWrite, now: int)
    requires OwnDone(reg, tx, tx1, key, e, w) && w.completion.Some? && WroteOwn(e, tx1.entities[key], spec, now)
    requires w.instance.Some? && w.instance.value.above <= e.Path()
    requires AdvanceEnds(reg, tx1, tx2, w.instance.value, w.completion.value)
    requires RootOf(ParentKey(w.instance.value.link), tx1.entities[ParentKey(w.instance.value.link)]) == RootOf(key, e)
    requires tx1.entities[ParentKey(w.instance.value.link)].Path() == w.instance.value.above
    requires key in tx.entities && tx.entities[key] == e
    ensures WriteEnds(reg, tx, tx2, key, e, spec, now)
  {
    TouchedCompose(tx.entities, tx1.entities, tx2.entities, RootOf(key, e));
    TopCompose(tx.entities, tx1.entities, tx2.entities, RootOf(key, e), e.Path(), ParentKey(w.instance.value.link));
    assert TouchedAt(tx1.entities, tx2.entities, RootOf(key, e), key);
    forall k | k in tx.entities && k != key
      ensures ContextKept(tx.entities, tx2.entities, k)
    {
      assert ContextKept(tx.entities, tx1.entities, k) && ContextKept(tx1.entities, tx2.entities, k);
    }
  }

  /** The completed child still names its parent's current entry instance. */
  ghost predicate ParentWaits(
    reg: Registry, tx: Tx, child: Key, childState: Encoded, instance: Instance, target: string, end: RowRef,
    root: Key)
  {
    var link := instance.link;
    var parent := ParentKey(link);
    && AwaitsParent(reg, tx, child, childState, instance, target, end)
    && parent in tx.entities && tx.entities[parent].Live()
    && link.region in tx.entities[parent].states
    && StepOf(parent, tx.entities[parent], link.region) == link
    && RootOf(parent, tx.entities[parent]) == root
    && tx.entities[parent].Path() == instance.above
    && TreeOk(reg, tx.entities, Some(Place(parent, link.region)))
  }

  lemma CompletionAwaits(reg: Registry, tx: Tx, now: int, key: Key, e: Entity, spec: WriteSpec, tx1: Tx, w: OwnWrite)
    requires WriteReady(reg, tx, now, key, e, spec)
    requires WriteOwn(reg, tx, now, key, e, spec) == Ok(w) && w.completion.Some?
    requires OwnDone(reg, tx, tx1, key, e, w)
    ensures w.instance.Some? && ParentWaits(reg, tx1, key, Encode(spec.newStates), w.instance.value,
                                            w.completion.value, w.row, RootOf(key, e))
    ensures w.instance.value.above <= e.Path()
  {
    WriteOwnEffect(reg, tx, now, key, e, spec);
    assert Up(reg, tx.entities, key);
    RootOfParent(reg, tx.entities, key);
  }

  /** The parent's write has its row's identity to itself: earlier rows used earlier entries. */
  lemma AdvanceIsFresh(reg: Registry, tx: Tx, parentKey: Key, region: string, pending: Option<Key>)
    requires LedgerOk(reg, tx.entities, tx.history, pending)
    requires parentKey in tx.entities && region in tx.entities[parentKey].states
    ensures var e := tx.entities[parentKey];
            && FreshIdentity(tx.history, parentKey, SubId(region, e.states[region], EntryOf(e, region).entry))
            && FreshIdentity(tx.history, parentKey, TimeoutId(region, EntryOf(e, region).entry))
  {
    var e := tx.entities[parentKey];
    forall i | 0 <= i < |tx.history| && tx.history[i].entity == parentKey
      ensures tx.history[i].identity != SubId(region, e.states[region], EntryOf(e, region).entry)
      ensures tx.history[i].identity != TimeoutId(region, EntryOf(e, region).entry)
    {
      assert RowOkAt(tx.entities, tx.history, i);
    }
  }

  /** The parent's own write is ready to be made. */
  lemma AdvanceReady(
    reg: Registry, tx: Tx, trig: Trigger, child: Key, childState: Encoded, instance: Instance, target: string,
    end: RowRef)
    requires WellFormedRegistry(reg) && LedgerOk(reg, tx.entities, tx.history, Some(child))
    requires ParentKey(instance.link) in tx.entities
    requires ParentWaits(reg, tx, child, childState, instance, target, end,
                         RootOf(ParentKey(instance.link), tx.entities[ParentKey(instance.link)]))
    ensures var link := instance.link;
            var parent := tx.entities[ParentKey(link)];
            var tx1 := tx.(events := tx.events + [Finished(child, instance.depth, link, end, target, None)]);
            && link.machine in reg
            && WriteReady(reg, tx1, trig.now, ParentKey(link), parent,
                          AdvanceSpec(reg[link.machine], parent, link.region, link.state, target, trig.timestamp,
                                      AdvanceCause(trig, link, EntryOf(parent, link.region), child, childState, end)))
  {
    var link := instance.link;
    var parentKey := ParentKey(link);
    var parent := tx.entities[parentKey];
    assert EntityOkAt(reg, tx.entities, tx.history, parentKey);
    assert EntryCurrent(parent, link.region);
    var cause := AdvanceCause(trig, link, EntryOf(parent, link.region), child, childState, end);
    AdvanceSpecOk(reg, parentKey, parent, link.region, target, trig.timestamp, cause);
    AdvanceIsFresh(reg, tx, parentKey, link.region, Some(child));
  }

  lemma {:induction false} CompleteParentTree(
    reg: Registry, tx: Tx, trig: Trigger, child: Key, childState: Encoded, instance: Instance, target: string,
    end: RowRef)
    requires WellFormedRegistry(reg) && LedgerOk(reg, tx.entities, tx.history, Some(child))
    requires ParentKey(instance.link) in tx.entities
    requires ParentWaits(reg, tx, child, childState, instance, target, end,
                         RootOf(ParentKey(instance.link), tx.entities[ParentKey(instance.link)]))
    ensures match CompleteParent(reg, tx, trig, child, childState, instance, target, end)
            case Ok(tx') => AdvanceEnds(reg, tx, tx', instance, target)
            case Err(error) => StartRefusal(error)
    decreases ActiveKeys(tx.entities), 1
  {
    var link := instance.link;
    var parent := tx.entities[ParentKey(link)];
    AdvanceReady(reg, tx, trig, child, childState, instance, target, end);
    var tx1 := tx.(events := tx.events + [Finished(child, instance.depth, link, end, target, None)]);
    var cause := AdvanceCause(trig, link, EntryOf(parent, link.region), child, childState, end);
    var spec := AdvanceSpec(reg[link.machine], parent, link.region, link.state, target, trig.timestamp, cause);
    WriteEntityTree(reg, tx1, trig, ParentKey(link), parent, spec);
    var r := WriteEntity(reg, tx1, trig, ParentKey(link), parent, spec);
    if r.Ok? {
      AdvancedAll(reg, tx, tx1, r.value.0, instance, target, spec, trig.now);
    }
  }

  /** The parent's own context is written back. */
  lemma AdvancedAll(
    reg: Registry, tx: Tx, tx1: Tx, tx2: Tx, instance: Instance, target: string, spec: WriteSpec, now: int)
    requires ParentKey(instance.link) in tx.entities && instance.link.machine in reg && tx1.entities == tx.entities
    requires instance.link.region in tx.entities[ParentKey(instance.link)].states
    requires WriteEnds(reg, tx1, tx2, ParentKey(instance.link), tx.entities[ParentKey(instance.link)], spec, now)
    requires spec == AdvanceSpec(reg[instance.link.machine], tx.entities[ParentKey(instance.link)],
                                 instance.link.region, instance.link.state, target, spec.timestamp, spec.cause)
    ensures forall tx': Tx :: tx'.entities == tx2.entities && tx'.history == tx2.history ==>
              AdvanceEnds(reg, tx, tx', instance, target)
  {
    var key := ParentKey(instance.link);
    forall k | k in tx.entities ensures ContextKept(tx.entities, tx2.entities, k) {
      assert k != key ==> ContextKept(tx1.entities, tx2.entities, k);
    }
  }
}
