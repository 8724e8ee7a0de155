/** One write breaks the tree at the written entity; its children's lifecycle restores it, region by
    region. */
module TreeProofs {
  import opened Names
  import opened Models
  import opened Engine
  import opened Store
  import opened Lifecycle
  import opened Ledger
  import opened LedgerProofs
  import opened Tree
  import opened CancelProofs
  import opened StartProofs

  // ---------------------------------------------------------------- the tree in the middle of a write

  /** The write moved on from the region's entry instance, or ended the entity. */
  ghost predicate Left(e: Entity, was: Entity, ended: bool, r: string) {
    r in was.states && r in e.states && (ended || EntryOf(e, r).entry != EntryOf(was, r).entry)
  }

  /** An active child of an entry instance that the write left, in a region still to be visited. */
  ghost predicate Orphan(entities: map<Key, Entity>, key: Key, was: Entity, ended: bool, todo: seq<string>, c: Key) {
    && key in entities && c in entities && entities[c].IsActiveChild()
    && var i := entities[c].instance.value;
       && i.link.region in todo
       && Left(entities[key], was, ended, i.link.region)
       && i.link == StepOf(key, was, i.link.region)
       && i.above == was.Path()
  }

  ghost predicate UpOrOrphan(
    reg: Registry, entities: map<Key, Entity>, key: Key, was: Entity, ended: bool, todo: seq<string>, c: Key)
  {
    Up(reg, entities, c) || Orphan(entities, key, was, ended, todo, c)
  }

  /** The child of an entry instance that the write left is still the linked one. */
  ghost predicate LeftChild(reg: Registry, entities: map<Key, Entity>, key: Key, was: Entity, ended: bool, r: string) {
    key in entities && (Left(entities[key], was, ended, r) && InManaged(reg, key, was, r) ==>
      Linked(entities, ChildOf(reg, key, was, r), StepOf(key, was, r), was.Path()))
  }

  /** `was` is the written entity's previous row, and `todo` the regions still to be visited. */
  ghost predicate MidTree(
    reg: Registry, entities: map<Key, Entity>, key: Key, was: Entity, ended: bool, hole: Option<Place>,
    todo: seq<string>)
  {
    && key in entities
    && entities[key].states.Keys == was.states.Keys
    && entities[key].Path() == was.Path()
    && (ended <==> !entities[key].Live())
    && (hole.Some? ==> hole.value.key in entities && |entities[hole.value.key].Path()| < |was.Path()|)
    && (forall k, r {:trigger DownAt(reg, entities, hole, k, r)} ::
          k in entities && r in entities[k].states && !(k == key && r in todo && Left(entities[key], was, ended, r)) ==>
            DownAt(reg, entities, hole, k, r))
    && (forall c {:trigger UpOrOrphan(reg, entities, key, was, ended, todo, c)} ::
          c in entities ==> UpOrOrphan(reg, entities, key, was, ended, todo, c))
    && (forall r {:trigger LeftChild(reg, entities, key, was, ended, r)} ::
          r in todo ==> LeftChild(reg, entities, key, was, ended, r))
  }

  /** No active child of the region's left entry instance remains. */
  ghost predicate RegionCleared(entities: map<Key, Entity>, key: Key, was: Entity, r: string)
    requires r in was.states
  {
    forall c {:trigger entities[c]} :: c in entities && entities[c].IsActiveChild() ==>
      entities[c].instance.value.link != StepOf(key, was, r)
  }

  // ---------------------------------------------------------------- what a lifecycle may touch

  /** The path goes through one of the regions of `key`, whose own path is `path`. */
  ghost predicate Through(key: Key, path: seq<Step>, regions: seq<string>, p: seq<Step>) {
    path < p && ParentKey(p[|path|]) == key && p[|path|].region in regions
  }

  ghost predicate TouchedBelow(key: Key, path: seq<Step>, regions: seq<string>, e: Entity, e': Entity) {
    e' == e || (
      && e.IsActiveChild() && !e'.Live()
      && e'.version == e.version + 1
      && e'.Path() == e.Path()
      && e'.states == e.states && e'.context == e.context
      && Through(key, path, regions, e.Path()))
  }

  ghost predicate StartedBelow(key: Key, path: seq<Step>, regions: seq<string>, ended: bool, e: Entity) {
    !ended && e.IsActiveChild() && e.version == 1 && e.context == map[] && Through(key, path, regions, e.Path())
  }

  /** Cancellations and starts below `key` only. */
  ghost predicate OnlyBelow(
    entities: map<Key, Entity>, entities': map<Key, Entity>, key: Key, path: seq<Step>, regions: seq<string>,
    ended: bool)
  {
    forall k {:trigger Change(entities, entities', key, path, regions, ended, k)} ::
      Change(entities, entities', key, path, regions, ended, k)
  }

  ghost predicate Change(
    entities: map<Key, Entity>, entities': map<Key, Entity>, key: Key, path: seq<Step>, regions: seq<string>,
    ended: bool, k: Key)
  {
    if k in entities then k in entities' && TouchedBelow(key, path, regions, entities[k], entities'[k])
    else k in entities' ==> StartedBelow(key, path, regions, ended, entities'[k])
  }

  lemma OnlyBelowCompose(
    entities: map<Key, Entity>, entities1: map<Key, Entity>, entities2: map<Key, Entity>, key: Key, path: seq<Step>,
    r0: string, rest: seq<string>, ended: bool)
    requires OnlyBelow(entities, entities1, key, path, [r0], ended)
    requires OnlyBelow(entities1, entities2, key, path, rest, ended)
    requires r0 !in rest
    ensures OnlyBelow(entities, entities2, key, path, [r0] + rest, ended)
  {
    forall k ensures Change(entities, entities2, key, path, [r0] + rest, ended, k) {
      assert Change(entities, entities1, key, path, [r0], ended, k);
      assert Change(entities1, entities2, key, path, rest, ended, k);
    }
  }

  // ---------------------------------------------------------------- cancelling one region

  /** The subtree of a left entry instance is in order in the middle of the write. */
  lemma MidSubtree(
    reg: Registry, entities: map<Key, Entity>, key: Key, was: Entity, ended: bool, hole: Option<Place>,
    todo: seq<string>, s: Step)
    requires MidTree(reg, entities, key, was, ended, hole, todo)
    ensures SubtreeOk(reg, entities, was.Path() + [s])
  {
    var base := was.Path() + [s];
    forall d | InSubtree(entities, base, d) ensures SubtreeNode(reg, entities, base, d) {
      forall r | r in entities[d].states ensures Down(reg, entities, d, r, true) {
        assert DownAt(reg, entities, hole, d, r);
      }
      assert UpOrOrphan(reg, entities, key, was, ended, todo, d);
    }
  }

  /** A live entity's linked child is below a path only if the entity is, or it is the path's last step. */
  lemma ChildBelow(reg: Registry, entities: map<Key, Entity>, k: Key, r: string, base: seq<Step>, s: Step)
    requires k in entities && entities[k].Live() && InManaged(reg, k, entities[k], r)
    requires Down(reg, entities, k, r, false)
    requires base + [s] <= entities[ChildOf(reg, k, entities[k], r)].Path()
    ensures InSubtree(entities, base + [s], k) || StepOf(k, entities[k], r) == s
  {
    var c := ChildOf(reg, k, entities[k], r);
    var above, link := entities[k].Path(), StepOf(k, entities[k], r);
    assert entities[c].Path() == above + [link];
    if |base + [s]| <= |above| {
    } else {
      assert (above + [link])[|base|] == s;
    }
  }

  lemma MidAfterCancel(
    reg: Registry, entities: map<Key, Entity>, entities': map<Key, Entity>, key: Key, was: Entity, ended: bool,
    hole: Option<Place>, todo: seq<string>, r0: string, now: int)
    requires MidTree(reg, entities, key, was, ended, hole, todo)
    requires Left(entities[key], was, ended, r0)
    requires CancelledExactly(entities, entities', was.Path() + [StepOf(key, was, r0)], now)
    ensures MidTree(reg, entities', key, was, ended, hole, todo)
    ensures OnlyBelow(entities, entities', key, was.Path(), [r0], ended)
  {
    var s := StepOf(key, was, r0);
    var base := was.Path() + [s];
    assert !(base <= was.Path());
    assert entities'[key] == entities[key];
    forall k | k in entities
      ensures TouchedBelow(key, was.Path(), [r0], entities[k], entities'[k])
      ensures entities'[k].Live() ==> entities'[k] == entities[k]
      ensures entities'[k].Path() == entities[k].Path()
      ensures entities'[k].states == entities[k].states
    {
      if InSubtree(entities, base, k) {
        assert CancelledIn(entities[k], entities'[k], now);
      }
    }
    forall k, r | k in entities' && r in entities'[k].states &&
        !(k == key && r in todo && Left(entities'[key], was, ended, r))
      ensures DownAt(reg, entities', hole, k, r)
    {
      MidDownAfterCancel(reg, entities, entities', key, was, ended, hole, todo, r0, now, k, r);
    }
    forall c | c in entities' ensures UpOrOrphan(reg, entities', key, was, ended, todo, c) {
      MidUpAfterCancel(reg, entities, entities', key, was, ended, hole, todo, r0, now, c);
    }
    forall r | r in todo ensures LeftChild(reg, entities', key, was, ended, r) {
      assert LeftChild(reg, entities, key, was, ended, r);
    }
  }

  lemma MidDownAfterCancel(
    reg: Registry, entities: map<Key, Entity>, entities': map<Key, Entity>, key: Key, was: Entity, ended: bool,
    hole: Option<Place>, todo: seq<string>, r0: string, now: int, k: Key, r: string)
    requires MidTree(reg, entities, key, was, ended, hole, todo)
    requires Left(entities[key], was, ended, r0)
    requires CancelledExactly(entities, entities', was.Path() + [StepOf(key, was, r0)], now)
    requires entities'[key] == entities[key]
    requires k in entities && (entities'[k].Live() ==> entities'[k] == entities[k]) && r in entities[k].states
    requires !(k == key && r in todo && Left(entities[key], was, ended, r))
    ensures DownAt(reg, entities', hole, k, r)
  {
    var s := StepOf(key, was, r0);
    var base := was.Path() + [s];
    assert DownAt(reg, entities, hole, k, r);
    if entities'[k].Live() && InManaged(reg, k, entities[k], r) {
      var c := ChildOf(reg, k, entities[k], r);
      if InSubtree(entities, base, c) {
        assert CancelledIn(entities[c], entities'[c], now);
        ChildBelow(reg, entities, k, r, was.Path(), s);
      } else {
        assert entities'[c] == entities[c];
      }
    }
  }

  lemma MidUpAfterCancel(
    reg: Registry, entities: map<Key, Entity>, entities': map<Key, Entity>, key: Key, was: Entity, ended: bool,
    hole: Option<Place>, todo: seq<string>, r0: string, now: int, c: Key)
    requires MidTree(reg, entities, key, was, ended, hole, todo)
    requires Left(entities[key], was, ended, r0)
    requires CancelledExactly(entities, entities', was.Path() + [StepOf(key, was, r0)], now)
    requires entities'[key] == entities[key]
    requires c in entities
    ensures UpOrOrphan(reg, entities', key, was, ended, todo, c)
  {
    var base := was.Path() + [StepOf(key, was, r0)];
    assert UpOrOrphan(reg, entities, key, was, ended, todo, c);
    if InSubtree(entities, base, c) {
      assert CancelledIn(entities[c], entities'[c], now);
    } else if entities[c].IsActiveChild() && Up(reg, entities, c) {
      assert entities'[c] == entities[c];
      var i := entities[c].instance.value;
      var parent := ParentKey(i.link);
      assert entities'[parent] == entities[parent];
    } else {
      assert entities'[c] == entities[c];
    }
  }

  /** The child of the entry instance that the write left is cancelled, whatever its status was. */
  lemma CancelLeft(
    reg: Registry, tx: Tx, trig: Trigger, key: Key, was: Entity, ended: bool, hole: Option<Place>, todo: seq<string>,
    r0: string, reason: CancelReason, cancelledBy: RowRef, pending: Option<Key>)
    requires LedgerOk(reg, tx.entities, tx.history, pending) && key.machine in reg
    requires MidTree(reg, tx.entities, key, was, ended, hole, todo)
    requires r0 in todo && Left(tx.entities[key], was, ended, r0)
    ensures var r := CancelChildOf(reg, tx, trig, key, r0, was.states[r0], reason, cancelledBy);
            && r.Ok?
            && LedgerOk(reg, r.value.entities, r.value.history, pending)
            && MidTree(reg, r.value.entities, key, was, ended, hole, todo)
            && r.value.entities[key] == tx.entities[key]
            && OnlyBelow(tx.entities, r.value.entities, key, was.Path(), [r0], ended)
            && RegionCleared(r.value.entities, key, was, r0)
  {
    var s := StepOf(key, was, r0);
    AllInstancesOk(reg, tx.entities, tx.history, pending);
    if InManaged(reg, key, was, r0) {
      var c := ChildOf(reg, key, was, r0);
      assert LeftChild(reg, tx.entities, key, was, ended, r0);
      if tx.entities[c].IsActiveChild() {
        MidSubtree(reg, tx.entities, key, was, ended, hole, todo, s);
        CancelSubtreeExact(reg, tx, trig, c, reason, cancelledBy, pending);
        CancelSubtreeLedger(reg, tx, trig, c, reason, cancelledBy, pending);
        var tx' := CancelSubtree(reg, tx, trig, c, reason, cancelledBy).value;
        LeftCancelled(reg, tx.entities, tx'.entities, tx'.history, key, was, ended, hole, todo, r0, c, trig.now,
                      pending);
      } else {
        OnlyOneChild(reg, tx.entities, key, was, r0);
      }
    }
    NothingBelow(tx.entities, key, was.Path(), [r0], ended);
  }

  lemma LeftCancelled(
    reg: Registry, entities: map<Key, Entity>, entities': map<Key, Entity>, history': seq<Row>, key: Key, was: Entity,
    ended: bool, hole: Option<Place>, todo: seq<string>, r0: string, c: Key, now: int, pending: Option<Key>)
    requires LedgerOk(reg, entities', history', pending)
    requires MidTree(reg, entities, key, was, ended, hole, todo)
    requires r0 in todo && Left(entities[key], was, ended, r0) && InManaged(reg, key, was, r0)
    requires c == ChildOf(reg, key, was, r0) && Linked(entities, c, StepOf(key, was, r0), was.Path())
    requires entities[c].IsActiveChild()
    requires CancelledExactly(entities, entities', was.Path() + [StepOf(key, was, r0)], now)
    ensures MidTree(reg, entities', key, was, ended, hole, todo) && entities'[key] == entities[key]
    ensures OnlyBelow(entities, entities', key, was.Path(), [r0], ended) && RegionCleared(entities', key, was, r0)
  {
    MidAfterCancel(reg, entities, entities', key, was, ended, hole, todo, r0, now);
    AllInstancesOk(reg, entities', history', pending);
    assert InSubtree(entities, was.Path() + [StepOf(key, was, r0)], c);
    assert CancelledIn(entities[c], entities'[c], now);
    OnlyOneChild(reg, entities', key, was, r0);
  }

  /** The entry instance's child is the only one that names it. */
  lemma OnlyOneChild(reg: Registry, entities: map<Key, Entity>, key: Key, was: Entity, r0: string)
    requires forall k :: k in entities ==> InstanceOk(reg, k, entities[k])
    requires InManaged(reg, key, was, r0)
    requires var c := ChildOf(reg, key, was, r0); c in entities && !entities[c].IsActiveChild()
    ensures RegionCleared(entities, key, was, r0)
  {
  }

  // ---------------------------------------------------------------- starting in one region

  lemma StartedBelowKey(
    reg: Registry, entities: map<Key, Entity>, entities': map<Key, Entity>, key: Key, e: Entity, r0: string)
    requires key in entities && entities[key] == e && r0 in e.states
    requires StartedChild(reg, entities, entities', StepOf(key, e, r0), e.Path())
    ensures OnlyBelow(entities, entities', key, e.Path(), [r0], false)
  {
    forall k ensures Change(entities, entities', key, e.Path(), [r0], false, k) {
      if k in entities' && k !in entities {
        assert FreshNode(reg, entities', e.Path() + [StepOf(key, e, r0)], k);
        PrefixOfExtension(e.Path(), StepOf(key, e, r0), entities'[k].Path());
      }
    }
  }

  lemma MidAfterStart(
    reg: Registry, entities: map<Key, Entity>, entities': map<Key, Entity>, key: Key, was: Entity,
    hole: Option<Place>, todo: seq<string>, r0: string)
    requires MidTree(reg, entities, key, was, false, hole, todo)
    requires r0 in todo && Left(entities[key], was, false, r0) && RegionCleared(entities, key, was, r0)
    requires StartedChild(reg, entities, entities', StepOf(key, entities[key], r0), was.Path())
    ensures MidTree(reg, entities', key, was, false, hole, todo)
    ensures RegionCleared(entities', key, was, r0)
    ensures Down(reg, entities', key, r0, true)
    ensures OnlyBelow(entities, entities', key, was.Path(), [r0], false)
  {
    var e := entities[key];
    ChildIsBelow(reg, entities, entities', key, e, r0);
    StartedBelowKey(reg, entities, entities', key, e, r0);
    assert entities'[key] == e;
    forall k, r | k in entities' && r in entities'[k].states &&
        !(k == key && r in todo && Left(entities'[key], was, false, r))
      ensures DownAt(reg, entities', hole, k, r)
    {
      if k in entities {
        assert DownAt(reg, entities, hole, k, r);
        DownStays(reg, entities, entities', k, r, hole != Some(Place(k, r)));
      } else {
        assert FreshNode(reg, entities', e.Path(), k);
        assert Down(reg, entities', k, r, true);
      }
    }
    forall c | c in entities'
      ensures UpOrOrphan(reg, entities', key, was, false, todo, c)
      ensures c !in entities ==> Up(reg, entities', c)
    {
      if c in entities {
        assert UpOrOrphan(reg, entities, key, was, false, todo, c);
        if Up(reg, entities, c) {
          UpStays(reg, entities, entities', c);
        }
      } else {
        assert FreshNode(reg, entities', e.Path(), c);
        assert FreshNode(reg, entities', e.Path() + [StepOf(key, e, r0)], c);
        PrefixOfExtension(e.Path(), StepOf(key, e, r0), entities'[c].Path());
      }
    }
    forall r | r in todo ensures LeftChild(reg, entities', key, was, false, r) {
      assert LeftChild(reg, entities, key, was, false, r);
    }
  }

  // ---------------------------------------------------------------- one region after another

  /** A visited region needs no exception any more. */
  lemma MidDone(
    reg: Registry, entities: map<Key, Entity>, key: Key, was: Entity, ended: bool, hole: Option<Place>, r0: string,
    rest: seq<string>)
    requires MidTree(reg, entities, key, was, ended, hole, [r0] + rest)
    requires r0 in was.states
    requires Left(entities[key], was, ended, r0) ==>
               && RegionCleared(entities, key, was, r0)
               && (!ended ==> Down(reg, entities, key, r0, true))
    ensures MidTree(reg, entities, key, was, ended, hole, rest)
  {
    forall k, r | k in entities && r in entities[k].states &&
        !(k == key && r in rest && Left(entities[key], was, ended, r))
      ensures DownAt(reg, entities, hole, k, r)
    {
    }
    forall c | c in entities ensures UpOrOrphan(reg, entities, key, was, ended, rest, c) {
      assert UpOrOrphan(reg, entities, key, was, ended, [r0] + rest, c);
    }
    forall r | r in rest ensures LeftChild(reg, entities, key, was, ended, r) {
      assert r in [r0] + rest;
    }
  }

  /** The entry documents that a write passes to the lifecycle. */
  ghost predicate EntriesOf(e: Entity, was: Entity, before: map<string, RegionEntry>, after: map<string, RegionEntry>) {
    && before == EffectiveEntries(was)
    && after == EffectiveEntries(e)
    && e.states.Keys == was.states.Keys
    && forall r :: r in was.states && EntryOf(e, r).entry == EntryOf(was, r).entry ==> e.states[r] == was.states[r]
  }

  /** What the lifecycle of some regions leaves. */
  ghost predicate LifecycleDone(
    reg: Registry, tx: Tx, tx': Tx, key: Key, was: Entity, ended: bool, hole: Option<Place>, visited: seq<string>,
    todo: seq<string>, pending: Option<Key>)
  {
    && LedgerOk(reg, tx'.entities, tx'.history, pending)
    && MidTree(reg, tx'.entities, key, was, ended, hole, todo)
    && key in tx.entities && tx'.entities[key] == tx.entities[key]
    && OnlyBelow(tx.entities, tx'.entities, key, was.Path(), visited, ended)
  }

  /** How the lifecycle of some regions ends: done, or refused by a start. */
  ghost predicate LifecycleEnds(
    reg: Registry, tx: Tx, r: Result<Tx>, key: Key, was: Entity, ended: bool, hole: Option<Place>,
    visited: seq<string>, todo: seq<string>, pending: Option<Key>)
  {
    match r
    case Ok(tx') => LifecycleDone(reg, tx, tx', key, was, ended, hole, visited, todo, pending)
    case Err(error) => !ended && StartRefusal(error)
  }

  lemma NothingBelow(entities: map<Key, Entity>, key: Key, path: seq<Step>, regions: seq<string>, ended: bool)
    ensures OnlyBelow(entities, entities, key, path, regions, ended)
  {
  }

  /** What the visit of one region comes to. */
  lemma RegionSteps(
    reg: Registry, tx: Tx, trig: Trigger, key: Key, was: Entity, e: Entity, before: map<string, RegionEntry>,
    after: map<string, RegionEntry>, r0: string, ended: bool, cancelledBy: RowRef)
    requires key.machine in reg && EntriesOf(e, was, before, after) && r0 in was.states
    ensures var r := LifecycleOfRegion(reg, tx, trig, key, was.Path(), before, after, r0, ended, cancelledBy);
            var reason := if ended then ParentCompleted else ParentExit;
            var cancelled := CancelChildOf(reg, tx, trig, key, r0, was.states[r0], reason, cancelledBy);
            r == if !Left(e, was, ended, r0) then Ok(tx)
                 else if cancelled.Ok? && !ended && InManaged(reg, key, e, r0) then
                   StartChild(reg, cancelled.value, trig, key, was.Path(), r0, e.states[r0], EntryOf(e, r0).entry)
                 else cancelled
  {
  }

  lemma LifecycleOfRegionTree(
    reg: Registry, tx: Tx, trig: Trigger, key: Key, was: Entity, before: map<string, RegionEntry>,
    after: map<string, RegionEntry>, r0: string, rest: seq<string>, ended: bool, hole: Option<Place>,
    cancelledBy: RowRef, pending: Option<Key>)
    requires LedgerOk(reg, tx.entities, tx.history, pending) && key.machine in reg
    requires MidTree(reg, tx.entities, key, was, ended, hole, [r0] + rest)
    requires EntriesOf(tx.entities[key], was, before, after) && r0 in was.states
    ensures var r := LifecycleOfRegion(reg, tx, trig, key, was.Path(), before, after, r0, ended, cancelledBy);
            LifecycleEnds(reg, tx, r, key, was, ended, hole, [r0], rest, pending)
  {
    var todo := [r0] + rest;
    var e := tx.entities[key];
    assert r0 in todo;
    RegionSteps(reg, tx, trig, key, was, e, before, after, r0, ended, cancelledBy);
    if Left(e, was, ended, r0) {
      var reason := if ended then ParentCompleted else ParentExit;
      CancelLeft(reg, tx, trig, key, was, ended, hole, todo, r0, reason, cancelledBy, pending);
      var tx1 := CancelChildOf(reg, tx, trig, key, r0, was.states[r0], reason, cancelledBy).value;
      if !ended && InManaged(reg, key, e, r0) {
        StartEntered(reg, tx1, trig, key, was, r0, rest, hole, pending);
        var r := StartChild(reg, tx1, trig, key, was.Path(), r0, e.states[r0], EntryOf(e, r0).entry);
        if r.Ok? {
          CancelThenStart(tx.entities, tx1.entities, r.value.entities, key, was.Path(), r0);
        }
      } else {
        MidDone(reg, tx1.entities, key, was, ended, hole, r0, rest);
      }
    } else {
      NothingBelow(tx.entities, key, was.Path(), [r0], ended);
      MidDone(reg, tx.entities, key, was, ended, hole, r0, rest);
    }
  }

  /** Starting below the new state closes the region. */
  lemma StartEntered(
    reg: Registry, tx: Tx, trig: Trigger, key: Key, was: Entity, r0: string, rest: seq<string>, hole: Option<Place>,
    pending: Option<Key>)
    requires LedgerOk(reg, tx.entities, tx.history, pending) && key.machine in reg
    requires MidTree(reg, tx.entities, key, was, false, hole, [r0] + rest)
    requires Left(tx.entities[key], was, false, r0) && RegionCleared(tx.entities, key, was, r0)
    requires InManaged(reg, key, tx.entities[key], r0)
    ensures var e := tx.entities[key];
            match StartChild(reg, tx, trig, key, was.Path(), r0, e.states[r0], EntryOf(e, r0).entry)
            case Ok(tx') =>
              && LifecycleDone(reg, tx, tx', key, was, false, hole, [r0], rest, pending)
              && Extends(tx.entities, tx'.entities)
            case Err(error) => StartRefusal(error)
  {
    var e := tx.entities[key];
    var entry := EntryOf(e, r0).entry;
    StartChildTree(reg, tx, trig, key, was.Path(), r0, e.states[r0], entry, pending);
    StartChildLedger(reg, tx, trig, key, was.Path(), r0, e.states[r0], entry, pending);
    var r := StartChild(reg, tx, trig, key, was.Path(), r0, e.states[r0], entry);
    if r.Ok? {
      MidAfterStart(reg, tx.entities, r.value.entities, key, was, hole, [r0] + rest, r0);
      MidDone(reg, r.value.entities, key, was, false, hole, r0, rest);
    }
  }

  lemma CancelThenStart(
    entities: map<Key, Entity>, entities1: map<Key, Entity>, entities2: map<Key, Entity>, key: Key, path: seq<Step>,
    r0: string)
    requires entities1.Keys == entities.Keys
    requires OnlyBelow(entities, entities1, key, path, [r0], false)
    requires OnlyBelow(entities1, entities2, key, path, [r0], false)
    requires forall k :: k in entities1 ==> k in entities2 && entities2[k] == entities1[k]
    ensures OnlyBelow(entities, entities2, key, path, [r0], false)
  {
    forall k ensures Change(entities, entities2, key, path, [r0], false, k) {
      assert Change(entities, entities1, key, path, [r0], false, k);
      assert Change(entities1, entities2, key, path, [r0], false, k);
    }
  }

  lemma {:induction false} ApplyChildLifecycleTree(
    reg: Registry, tx: Tx, trig: Trigger, key: Key, was: Entity, before: map<string, RegionEntry>,
    after: map<string, RegionEntry>, regions: seq<string>, ended: bool, hole: Option<Place>, cancelledBy: RowRef,
    pending: Option<Key>)
    requires LedgerOk(reg, tx.entities, tx.history, pending) && key.machine in reg
    requires MidTree(reg, tx.entities, key, was, ended, hole, regions)
    requires EntriesOf(tx.entities[key], was, before, after)
    requires NoDups(regions) && forall r :: r in regions ==> r in was.states
    ensures var r := ApplyChildLifecycle(reg, tx, trig, key, was.Path(), before, after, regions, ended, cancelledBy);
            LifecycleEnds(reg, tx, r, key, was, ended, hole, regions, [], pending)
    decreases |regions|
  {
    if regions == [] {
      NothingBelow(tx.entities, key, was.Path(), [], ended);
    } else {
      var r0, rest := regions[0], regions[1..];
      assert regions == [r0] + rest;
      LifecycleOfRegionTree(reg, tx, trig, key, was, before, after, r0, rest, ended, hole, cancelledBy, pending);
      var r := LifecycleOfRegion(reg, tx, trig, key, was.Path(), before, after, r0, ended, cancelledBy);
      if r.Ok? {
        ApplyChildLifecycleTree(reg, r.value, trig, key, was, before, after, rest, ended, hole, cancelledBy, pending);
        EndsCompose(reg, tx, r.value,
                    ApplyChildLifecycle(reg, r.value, trig, key, was.Path(), before, after, rest, ended, cancelledBy),
                    key, was, ended, hole, r0, rest, pending);
      }
    }
  }

  /** The first region, then the others. */
  lemma EndsCompose(
    reg: Registry, tx: Tx, tx1: Tx, r: Result<Tx>, key: Key, was: Entity, ended: bool, hole: Option<Place>,
    r0: string, rest: seq<string>, pending: Option<Key>)
    requires LifecycleDone(reg, tx, tx1, key, was, ended, hole, [r0], rest, pending)
    requires LifecycleEnds(reg, tx1, r, key, was, ended, hole, rest, [], pending) && r0 !in rest
    ensures LifecycleEnds(reg, tx, r, key, was, ended, hole, [r0] + rest, [], pending)
  {
    if r.Ok? {
      OnlyBelowCompose(tx.entities, tx1.entities, r.value.entities, key, was.Path(), r0, rest, ended);
    }
  }
}
