/** The events of a commit read bottom-up: no instance ends after one of its ancestors. */
module EventOrder {
  import opened Names
  import opened Models
  import opened Engine
  import opened Store
  import opened Lifecycle
  import opened Ledger
  import opened WriteProofs
  import opened LedgerProofs
  import opened Tree
  import opened CancelProofs
  import opened CancelRows
  import opened TreeProofs
  import opened CascadeProofs
  import opened Growth
  import opened Requests
  import opened Delivery
  import opened Writes
  import opened Runs
  import opened CommitLog

  // ---------------------------------------------------------------- the order so far

  /** The event ends an instance that the transaction found. */
  predicate EndsOld(start: map<Key, Entity>, event: InstanceEvent) {
    IsEnd(event) && event.child in start
  }

  /** Found by the transaction, and not recorded as ended: `pending` has completed without its event. */
  predicate Running(start: map<Key, Entity>, entities: map<Key, Entity>, pending: Option<Key>, d: Key) {
    d in start && d in entities && (entities[d].IsActiveChild() || pending == Some(d))
  }

  ghost predicate NotAbove(start: map<Key, Entity>, events: seq<InstanceEvent>, i: nat, d: Key)
    requires i < |events|
  {
    events[i].child in start && d in start ==> !(start[events[i].child].Path() < start[d].Path())
  }

  /** What a cancellation gives as its reason, of the parent: it left the state, completed, or was itself
      cancelled. */
  ghost predicate ReasonFits(reason: CancelReason, parent: Entity) {
    match reason
    case ParentExit => parent.Live()
    case ParentCompleted => IsCompleted(parent)
    case AncestorCancelled => parent.instance.Some? && parent.instance.value.status == Cancelled
  }

  /** The parent of a cancelled instance was written, and that write fits the reason. */
  ghost predicate ReasonTrue(start: map<Key, Entity>, entities: map<Key, Entity>, event: InstanceEvent) {
    event.Dropped? && ParentKey(event.parent) in start ==>
      var parent := ParentKey(event.parent);
      && parent in entities && start[parent].version < entities[parent].version
      && (entities[parent].version == start[parent].version + 1 ==> ReasonFits(event.reason, entities[parent]))
  }

  /** The row is the write of an entity above `c`: no join's row and no cancellation. */
  ghost predicate WriteAbove(entities: map<Key, Entity>, history: seq<Row>, cause: RowRef, c: Key) {
    && 1 <= cause.row <= |history| && c in entities
    && var row := history[cause.row - 1];
       && row.identity == cause.key && !cause.key.JoinId? && !cause.key.CancelId?
       && row.entity in entities && entities[row.entity].Path() < entities[c].Path()
  }

  /** The row that cancelled the instance names the write that caused it, which is of an entity above. */
  ghost predicate CauseTrue(entities: map<Key, Entity>, history: seq<Row>, event: InstanceEvent) {
    event.Dropped? ==>
      && 1 <= event.end.row <= |history|
      && history[event.end.row - 1].entity == event.child && history[event.end.row - 1].cause.CancelCause?
      && history[event.end.row - 1].cause.cancelledBy.row < event.end.row
      && WriteAbove(entities, history, history[event.end.row - 1].cause.cancelledBy, event.child)
  }

  lemma CauseStays(
    entities: map<Key, Entity>, entities': map<Key, Entity>, history: seq<Row>, history': seq<Row>,
    event: InstanceEvent)
    requires AllKept(entities, entities') && history <= history' && CauseTrue(entities, history, event)
    ensures CauseTrue(entities', history', event)
  {
    if event.Dropped? {
      var end := event.end.row;
      assert history'[end - 1] == history'[..|history|][end - 1];
      WriteStays(entities, entities', history, history', history[end - 1].cause.cancelledBy, event.child);
    }
  }

  lemma WriteStays(
    entities: map<Key, Entity>, entities': map<Key, Entity>, history: seq<Row>, history': seq<Row>, cause: RowRef,
    c: Key)
    requires AllKept(entities, entities') && history <= history' && WriteAbove(entities, history, cause, c)
    ensures WriteAbove(entities', history', cause, c)
  {
    assert history'[cause.row - 1] == history'[..|history|][cause.row - 1];
    assert KeptAt(entities, entities', c) && KeptAt(entities, entities', history[cause.row - 1].entity);
  }

  ghost predicate ReasonTrueAt(start: map<Key, Entity>, tx: Tx, i: nat)
    requires i < |tx.events|
  {
    ReasonTrue(start, tx.entities, tx.events[i]) && CauseTrue(tx.entities, tx.history, tx.events[i])
  }

  ghost predicate ReasonsTrue(start: map<Key, Entity>, tx: Tx) {
    forall i {:trigger ReasonTrueAt(start, tx, i)} :: 0 <= i < |tx.events| ==> ReasonTrueAt(start, tx, i)
  }

  /** Later writes do not make a reason untrue. */
  lemma ReasonsAppend(start: map<Key, Entity>, tx: Tx, tx': Tx)
    requires ReasonsTrue(start, tx) && AllKept(tx.entities, tx'.entities) && tx.events <= tx'.events
    requires tx.history <= tx'.history
    requires forall i :: |tx.events| <= i < |tx'.events| ==>
               ReasonTrue(start, tx'.entities, tx'.events[i]) && CauseTrue(tx'.entities, tx'.history, tx'.events[i])
    ensures ReasonsTrue(start, tx')
  {
    forall i | 0 <= i < |tx'.events| ensures ReasonTrueAt(start, tx', i) {
      if i < |tx.events| {
        assert ReasonTrueAt(start, tx, i) && tx'.events[i] == tx.events[i];
        assert KeptAt(tx.entities, tx'.entities, ParentKey(tx.events[i].parent));
        CauseStays(tx.entities, tx'.entities, tx.history, tx'.history, tx.events[i]);
      }
    }
  }

  /** No end comes before an end further down, nothing below a recorded end is still running, and
      cancellations give true reasons. */
  ghost predicate EventsOk(start: map<Key, Entity>, tx: Tx, pending: Option<Key>) {
    && AllKept(start, tx.entities) && ReasonsTrue(start, tx)
    && (forall i, j {:trigger NotAbove(start, tx.events, i, tx.events[j].child)} :: 0 <= i < j < |tx.events| ==>
          EndsOld(start, tx.events[i]) && EndsOld(start, tx.events[j]) ==>
            NotAbove(start, tx.events, i, tx.events[j].child))
    && (forall i, d {:trigger NotAbove(start, tx.events, i, d)} :: 0 <= i < |tx.events| ==>
          EndsOld(start, tx.events[i]) && Running(start, tx.entities, pending, d) ==> NotAbove(start, tx.events, i, d))
  }

  /** All events appended since `tx` are starts. */
  ghost predicate OnlyStarts(tx: Tx, tx': Tx) {
    tx.events <= tx'.events && forall i :: |tx.events| <= i < |tx'.events| ==> tx'.events[i].Started?
  }

  /** A step that records no end and sets nothing running that was not. */
  lemma Quiet(start: map<Key, Entity>, tx: Tx, tx': Tx, pending: Option<Key>, pending': Option<Key>)
    requires EventsOk(start, tx, pending)
    requires AllKept(tx.entities, tx'.entities) && OnlyStarts(tx, tx') && tx.history <= tx'.history
    requires pending'.Some? && pending'.value in start ==> Running(start, tx.entities, pending, pending'.value)
    ensures EventsOk(start, tx', pending')
  {
    AllKeptOn(start, tx.entities, tx'.entities);
    ReasonsAppend(start, tx, tx');
    assert forall i :: 0 <= i < |tx.events| ==> tx'.events[i] == tx.events[i];
    forall i, j | 0 <= i < j < |tx'.events| && EndsOld(start, tx'.events[i]) && EndsOld(start, tx'.events[j])
      ensures NotAbove(start, tx'.events, i, tx'.events[j].child)
    {
      assert NotAbove(start, tx.events, i, tx.events[j].child);
    }
    forall i, d | 0 <= i < |tx'.events| && EndsOld(start, tx'.events[i]) && Running(start, tx'.entities, pending', d)
      ensures NotAbove(start, tx'.events, i, d)
    {
      assert KeptAt(start, tx.entities, d) && KeptAt(tx.entities, tx'.entities, d);
      assert Running(start, tx.entities, pending, d);
      assert NotAbove(start, tx.events, i, d);
    }
  }

  lemma StillRunning(start: map<Key, Entity>, tx: Tx, tx': Tx, pending: Option<Key>)
    requires EventsOk(start, tx, pending)
    requires AllKept(tx.entities, tx'.entities) && OnlyStarts(tx, tx') && tx.history <= tx'.history
    ensures EventsOk(start, tx', pending)
  {
    if pending.Some? && pending.value in start {
      assert KeptAt(start, tx.entities, pending.value);
    }
    Quiet(start, tx, tx', pending, pending);
  }

  // ---------------------------------------------------------------- cancellations

  /** One event for each row, in the same order. */
  ghost predicate Paired(tx: Tx, tx': Tx) {
    && |tx'.events| - |tx.events| == |tx'.history| - |tx.history| >= 0
    && tx.events <= tx'.events
    && tx.history <= tx'.history
    && forall i {:trigger tx'.events[i]} :: |tx.events| <= i < |tx'.events| ==>
         tx'.events[i].Dropped? && tx'.events[i].child == tx'.history[i - |tx.events| + |tx.history|].entity
  }

  lemma PairedOn(tx: Tx, tx1: Tx, tx2: Tx)
    requires Paired(tx, tx1) && Paired(tx1, tx2)
    ensures Paired(tx, tx2)
  {
    assert tx2.history[..|tx.history|] == tx2.history[..|tx1.history|][..|tx.history|];
    assert tx2.events[..|tx.events|] == tx2.events[..|tx1.events|][..|tx.events|];
    forall i | |tx.events| <= i < |tx2.events|
      ensures tx2.events[i].Dropped? && tx2.events[i].child == tx2.history[i - |tx.events| + |tx.history|].entity
    {
      if i < |tx1.events| {
        assert tx2.events[..|tx1.events|][i] == tx1.events[i];
        var n := i - |tx.events| + |tx.history|;
        assert tx2.history[..|tx1.history|][n] == tx1.history[n];
      }
    }
  }

  lemma {:induction false} CancelSubtreePaired(
    reg: Registry, tx: Tx, trig: Trigger, key: Key, reason: CancelReason, cancelledBy: RowRef)
    ensures var r := CancelSubtree(reg, tx, trig, key, reason, cancelledBy); r.Ok? ==> Paired(tx, r.value)
    decreases KeysFrom(tx.entities.Keys, key.id), 1, 0
  {
    var r := CancelSubtree(reg, tx, trig, key, reason, cancelledBy);
    if r.Ok? && key in tx.entities && tx.entities[key].IsActiveChild() {
      var states := tx.entities[key].states;
      var regions := SortedKeys(states.Keys);
      CancelChildrenPaired(reg, tx, trig, key, reg[key.machine], states, regions, cancelledBy);
      var tx1 := CancelChildren(reg, tx, trig, key, reg[key.machine], states, regions, cancelledBy).value;
      PairedOn(tx, tx1, r.value);
    }
  }

  lemma {:induction false} CancelChildrenPaired(
    reg: Registry, tx: Tx, trig: Trigger, key: Key, machine: Machine, states: StateMap, regions: seq<string>,
    cancelledBy: RowRef)
    requires key in tx.entities
    requires forall r :: r in regions ==> r in states
    ensures var r := CancelChildren(reg, tx, trig, key, machine, states, regions, cancelledBy);
            r.Ok? ==> Paired(tx, r.value)
    decreases KeysFrom(tx.entities.Keys, key.id), 0, |regions|
  {
    var r := CancelChildren(reg, tx, trig, key, machine, states, regions, cancelledBy);
    if r.Ok? && regions != [] {
      var state := states[regions[0]];
      match machine.ManagedSub(regions[0], state)
      case None =>
        CancelChildrenPaired(reg, tx, trig, key, machine, states, regions[1..], cancelledBy);
      case Some(sub) =>
        ChildIsDeeper(tx.entities.Keys, key, state);
        var c := ChildKey(sub, key.id, state);
        CancelSubtreePaired(reg, tx, trig, c, AncestorCancelled, cancelledBy);
        var tx1 := CancelSubtree(reg, tx, trig, c, AncestorCancelled, cancelledBy).value;
        CancelChildrenPaired(reg, tx1, trig, key, machine, states, regions[1..], cancelledBy);
        PairedOn(tx, tx1, r.value);
    }
  }

  /** The pending entity, if any, is not below the path. */
  ghost predicate PendingOutside(entities: map<Key, Entity>, pending: Option<Key>, base: seq<Step>) {
    pending.Some? && pending.value in entities ==> !(base <= entities[pending.value].Path())
  }

  lemma CancelSubtreeOrder(
    reg: Registry, start: map<Key, Entity>, tx: Tx, trig: Trigger, key: Key, reason: CancelReason,
    cancelledBy: RowRef, pending: Option<Key>)
    requires EventsOk(start, tx, pending) && LedgerOk(reg, tx.entities, tx.history, pending)
    requires key in tx.entities && tx.entities[key].IsActiveChild()
    requires SubtreeOk(reg, tx.entities, tx.entities[key].Path())
    requires PendingOutside(tx.entities, pending, tx.entities[key].Path()) && TopReason(start, tx.entities, key, reason)
    requires WriteAbove(tx.entities, tx.history, cancelledBy, key)
    ensures var r := CancelSubtree(reg, tx, trig, key, reason, cancelledBy); r.Ok? && EventsOk(start, r.value, pending)
  {
    SubtreeCancellation(reg, tx, trig, key, reason, cancelledBy, pending);
    CancelSubtreeRows(reg, tx, trig, key, reason, cancelledBy, pending);
    CancelSubtreePaired(reg, tx, trig, key, reason, cancelledBy);
    CancelSubtreeGrows(reg, tx, trig, key, reason, cancelledBy);
    var tx' := CancelSubtree(reg, tx, trig, key, reason, cancelledBy).value;
    AllInstancesOk(reg, tx.entities, tx.history, pending);
    CancelledReasons(reg, start, tx, tx', trig, key, reason, cancelledBy);
    CancelledOrder(start, tx, tx', tx.entities[key].Path(), trig.now, pending);
  }

  /** The parent of the subtree's top is above it, was written, and fits the reason. */
  ghost predicate TopReason(start: map<Key, Entity>, entities: map<Key, Entity>, top: Key, reason: CancelReason) {
    && top in entities && entities[top].instance.Some?
    && var parent := ParentKey(entities[top].instance.value.link);
       && parent in entities && |entities[parent].Path()| < |entities[top].Path()|
       && ReasonFits(reason, entities[parent])
       && (parent in start ==> start[parent].version < entities[parent].version)
  }

  /** The top gives the reason it was given, and the others that their parent was cancelled. */
  lemma CancelledReasons(
    reg: Registry, start: map<Key, Entity>, tx: Tx, tx': Tx, trig: Trigger, top: Key, reason: CancelReason,
    cause: RowRef)
    requires AllKept(start, tx.entities) && ReasonsTrue(start, tx) && TopReason(start, tx.entities, top, reason)
    requires forall k :: k in tx.entities ==> InstanceOk(reg, k, tx.entities[k])
    requires SubtreeOk(reg, tx.entities, tx.entities[top].Path()) && tx.entities[top].IsActiveChild()
    requires CancelledExactly(tx.entities, tx'.entities, tx.entities[top].Path(), trig.now)
    requires RowsMatch(tx, tx', tx.entities[top].Path())
    requires Attributed(tx, tx'.history, top, reason, cause, trig)
    requires Paired(tx, tx') && Grows(tx, tx') && WriteAbove(tx.entities, tx.history, cause, top)
    ensures ReasonsTrue(start, tx')
  {
    forall i | |tx.events| <= i < |tx'.events|
      ensures ReasonTrue(start, tx'.entities, tx'.events[i]) && CauseTrue(tx'.entities, tx'.history, tx'.events[i])
    {
      DroppedReason(reg, start, tx, tx', trig, top, reason, cause, i);
      DroppedCause(tx, tx', trig, top, reason, cause, i);
    }
    ReasonsAppend(start, tx, tx');
  }

  lemma DroppedReason(
    reg: Registry, start: map<Key, Entity>, tx: Tx, tx': Tx, trig: Trigger, top: Key, reason: CancelReason,
    cause: RowRef, i: nat)
    requires AllKept(start, tx.entities) && TopReason(start, tx.entities, top, reason)
    requires forall k :: k in tx.entities ==> InstanceOk(reg, k, tx.entities[k])
    requires SubtreeOk(reg, tx.entities, tx.entities[top].Path()) && tx.entities[top].IsActiveChild()
    requires CancelledExactly(tx.entities, tx'.entities, tx.entities[top].Path(), trig.now)
    requires RowsMatch(tx, tx', tx.entities[top].Path())
    requires Attributed(tx, tx'.history, top, reason, cause, trig)
    requires Paired(tx, tx') && Grows(tx, tx') && |tx.events| <= i < |tx'.events|
    ensures ReasonTrue(start, tx'.entities, tx'.events[i])
  {
    var base := tx.entities[top].Path();
    DroppedAs(tx, tx', trig, top, reason, cause, i);
    var c := tx'.events[i].child;
    assert RowNamed(tx, tx', base, i - |tx.events| + |tx.history|);
    if c == top {
      var parent := ParentKey(tx.entities[top].instance.value.link);
      assert !InSubtree(tx.entities, base, parent);
    } else {
      BelowCancelled(reg, start, tx.entities, tx'.entities, top, c, trig.now);
    }
  }

  /** The cause of every cancelled instance is the top's. */
  lemma DroppedCause(tx: Tx, tx': Tx, trig: Trigger, top: Key, reason: CancelReason, cause: RowRef, i: nat)
    requires top in tx.entities && tx.entities[top].IsActiveChild()
    requires CancelledExactly(tx.entities, tx'.entities, tx.entities[top].Path(), trig.now)
    requires RowsMatch(tx, tx', tx.entities[top].Path())
    requires Attributed(tx, tx'.history, top, reason, cause, trig)
    requires Paired(tx, tx') && Grows(tx, tx') && |tx.events| <= i < |tx'.events|
    requires WriteAbove(tx.entities, tx.history, cause, top)
    ensures CauseTrue(tx'.entities, tx'.history, tx'.events[i])
  {
    DroppedAs(tx, tx', trig, top, reason, cause, i);
    var base, c := tx.entities[top].Path(), tx'.events[i].child;
    assert RowNamed(tx, tx', base, i - |tx.events| + |tx.history|);
    PrefixTransitive(tx.entities[tx.history[cause.row - 1].entity].Path(), base, tx.entities[c].Path());
    WriteStays(tx.entities, tx'.entities, tx.history, tx'.history, cause, c);
  }

  /** The event names its instance's parent, and gives the reason of the instance's row. */
  lemma DroppedAs(
    tx: Tx, tx': Tx, trig: Trigger, top: Key, reason: CancelReason, cause: RowRef, i: nat)
    requires top in tx.entities && tx.entities[top].IsActiveChild()
    requires CancelledExactly(tx.entities, tx'.entities, tx.entities[top].Path(), trig.now)
    requires RowsMatch(tx, tx', tx.entities[top].Path())
    requires Attributed(tx, tx'.history, top, reason, cause, trig)
    requires Paired(tx, tx') && Grows(tx, tx') && |tx.events| <= i < |tx'.events|
    ensures var event := tx'.events[i];
            && event.Dropped? && event.child in tx.entities && tx.entities[event.child].instance.Some?
            && event.parent == tx.entities[event.child].instance.value.link
            && event.reason == (if event.child == top then reason else AncestorCancelled)
            && |tx.history| < event.end.row <= |tx'.history|
            && tx'.history[event.end.row - 1].entity == event.child
            && tx'.history[event.end.row - 1].cause.CancelCause?
            && tx'.history[event.end.row - 1].cause.cancelledBy == cause
  {
    var base, event := tx.entities[top].Path(), tx'.events[i];
    assert TrueAt(tx', i);
    assert RowNamed(tx, tx', base, i - |tx.events| + |tx.history|);
    assert InSubtree(tx.entities, base, event.child);
    assert CancelledIn(tx.entities[event.child], tx'.entities[event.child], trig.now);
    assert EndAppended(tx, tx', event.child);
    RowReason(tx, tx', trig, top, reason, cause, event.child, event.end.row - 1);
  }

  /** Of the appended rows only the last is the top's. */
  lemma RowReason(tx: Tx, tx': Tx, trig: Trigger, top: Key, reason: CancelReason, cause: RowRef, c: Key, j: nat)
    requires top in tx.entities && tx.entities[top].instance.Some? && c in tx'.entities
    requires RowsMatch(tx, tx', tx.entities[top].Path())
    requires Attributed(tx, tx'.history, top, reason, cause, trig)
    requires |tx.history| <= j < |tx'.history| && tx'.history[j].entity == c
    requires tx'.entities[c].instance.Some? && tx'.entities[c].instance.value.ended.Some?
    requires tx'.entities[c].instance.value.ended.value.row == j + 1
    ensures tx'.history[j].cause.CancelCause?
    ensures tx'.history[j].cause.reason == if c == top then reason else AncestorCancelled
    ensures tx'.history[j].cause.cancelledBy == cause
  {
    var n := |tx'.history| - 1;
    assert RowNamed(tx, tx', tx.entities[top].Path(), n);
    assert j < n ==> ByAncestor(tx'.history[j], cause, trig);
  }

  /** Below the top, the parent is cancelled too. */
  lemma BelowCancelled(
    reg: Registry, start: map<Key, Entity>, entities: map<Key, Entity>, entities': map<Key, Entity>, top: Key, c: Key,
    now: int)
    requires AllKept(start, entities) && top in entities && entities[top].IsActiveChild()
    requires SubtreeOk(reg, entities, entities[top].Path()) && c != top
    requires InSubtree(entities, entities[top].Path(), c)
    requires forall k :: k in entities ==> InstanceOk(reg, k, entities[k])
    requires CancelledExactly(entities, entities', entities[top].Path(), now)
    ensures var parent := ParentKey(entities[c].instance.value.link);
            && parent in entities' && ReasonFits(AncestorCancelled, entities'[parent])
            && (parent in start ==> start[parent].version < entities'[parent].version)
  {
    var base, parent := entities[top].Path(), ParentKey(entities[c].instance.value.link);
    if |entities[c].Path()| == |base| {
      SamePath(reg, c, entities[c], top, entities[top]);
    }
    ParentInSubtree(reg, entities, base, c);
    assert CancelledIn(entities[parent], entities'[parent], now);
    assert KeptAt(start, entities, parent);
  }

  /** A complete subtree ends in the order of its rows. */
  lemma CancelledOrder(
    start: map<Key, Entity>, tx: Tx, tx': Tx, base: seq<Step>, now: int, pending: Option<Key>)
    requires EventsOk(start, tx, pending) && PendingOutside(tx.entities, pending, base) && ReasonsTrue(start, tx')
    requires Paired(tx, tx') && AllKept(tx.entities, tx'.entities)
    requires CancelledExactly(tx.entities, tx'.entities, base, now)
    requires AllBelow(tx.entities, base, tx'.history, |tx.history|, |tx'.history|)
    requires Ordered(tx.entities, tx'.history, |tx.history|, |tx'.history|)
    ensures EventsOk(start, tx', pending)
  {
    AllKeptOn(start, tx.entities, tx'.entities);
    assert forall i :: 0 <= i < |tx.events| ==> tx'.events[i] == tx.events[i];
    forall i, j | 0 <= i < j < |tx'.events| && EndsOld(start, tx'.events[i]) && EndsOld(start, tx'.events[j])
      ensures NotAbove(start, tx'.events, i, tx'.events[j].child)
    {
      if j < |tx.events| {
        assert NotAbove(start, tx.events, i, tx.events[j].child);
      } else {
        AppendedAfter(start, tx, tx', base, pending, i, j);
      }
    }
    forall i, d | 0 <= i < |tx'.events| && EndsOld(start, tx'.events[i]) && Running(start, tx'.entities, pending, d)
      ensures NotAbove(start, tx'.events, i, d)
    {
      if i < |tx.events| {
        assert KeptAt(start, tx.entities, d) && KeptAt(tx.entities, tx'.entities, d);
        assert NotAbove(start, tx.events, i, d);
      } else {
        assert CancelsBelow(tx.entities, base, tx'.history, i - |tx.events| + |tx.history|);
        NoneRunsBelow(start, tx, tx', base, now, pending, tx'.events[i].child, d);
      }
    }
  }

  /** The event of a cancelled instance comes after no end above it. */
  lemma AppendedAfter(
    start: map<Key, Entity>, tx: Tx, tx': Tx, base: seq<Step>, pending: Option<Key>, i: nat, j: nat)
    requires EventsOk(start, tx, pending) && Paired(tx, tx')
    requires AllBelow(tx.entities, base, tx'.history, |tx.history|, |tx'.history|)
    requires Ordered(tx.entities, tx'.history, |tx.history|, |tx'.history|)
    requires i < j < |tx'.events| && |tx.events| <= j
    requires EndsOld(start, tx'.events[i]) && EndsOld(start, tx'.events[j])
    ensures NotAbove(start, tx'.events, i, tx'.events[j].child)
  {
    var a, d, h := tx'.events[i].child, tx'.events[j].child, |tx.history| - |tx.events|;
    assert CancelsBelow(tx.entities, base, tx'.history, j + h);
    assert KeptAt(start, tx.entities, a) && KeptAt(start, tx.entities, d);
    if i < |tx.events| {
      assert NotAbove(start, tx.events, i, d);
    } else {
      assert NotAncestorFirst(tx.entities, tx'.history, i + h, j + h);
    }
  }

  /** What is still running after the cancellation is not below a cancelled instance. */
  lemma NoneRunsBelow(
    start: map<Key, Entity>, tx: Tx, tx': Tx, base: seq<Step>, now: int, pending: Option<Key>, a: Key, d: Key)
    requires AllKept(start, tx.entities) && AllKept(tx.entities, tx'.entities)
    requires PendingOutside(tx.entities, pending, base)
    requires CancelledExactly(tx.entities, tx'.entities, base, now)
    requires a in start && InSubtree(tx.entities, base, a) && Running(start, tx'.entities, pending, d)
    ensures !(start[a].Path() < start[d].Path())
  {
    assert KeptAt(start, tx.entities, a) && KeptAt(start, tx.entities, d) && KeptAt(tx.entities, tx'.entities, d);
    if start[a].Path() < start[d].Path() {
      PrefixTransitive(base, tx.entities[a].Path(), tx.entities[d].Path());
    }
  }

  // ---------------------------------------------------------------- starts

  lemma {:induction false} StartChildOnlyStarts(
    reg: Registry, tx: Tx, trig: Trigger, parentKey: Key, path: seq<Step>, region: string, state: string, entry: int)
    requires parentKey.machine in reg
    ensures var r := StartChild(reg, tx, trig, parentKey, path, region, state, entry);
            r.Ok? ==> OnlyStarts(tx, r.value)
    decreases MAX_MANAGED_DEPTH + 1 - |path|, 1, 0
  {
    var r := StartChild(reg, tx, trig, parentKey, path, region, state, entry);
    if r.Ok? {
      var sub := reg[parentKey.machine].ManagedSub(region, state).value;
      var link := Step(parentKey.machine, parentKey.id, region, state, entry);
      var childKey := ChildKey(sub, parentKey.id, state);
      var states := reg[sub.machineId].InitialStates();
      var tx1 := StartedTx(tx, reg, childKey, path, link, trig.now);
      StartChildrenOnlyStarts(reg, tx1, trig, childKey, path + [link], states, SortedKeys(states.Keys));
      OnlyStartsOn(tx, tx1, r.value);
    }
  }

  lemma {:induction false} StartChildrenOnlyStarts(
    reg: Registry, tx: Tx, trig: Trigger, key: Key, path: seq<Step>, states: StateMap, regions: seq<string>)
    requires key.machine in reg
    requires forall r :: r in regions ==> r in states
    ensures var r := StartChildren(reg, tx, trig, key, path, states, regions); r.Ok? ==> OnlyStarts(tx, r.value)
    decreases MAX_MANAGED_DEPTH + 1 - |path|, 2, |regions|
  {
    var r := StartChildren(reg, tx, trig, key, path, states, regions);
    if r.Ok? && regions != [] {
      if reg[key.machine].ManagedSub(regions[0], states[regions[0]]).Some? {
        StartChildOnlyStarts(reg, tx, trig, key, path, regions[0], states[regions[0]], 1);
        var tx1 := StartChild(reg, tx, trig, key, path, regions[0], states[regions[0]], 1).value;
        StartChildrenOnlyStarts(reg, tx1, trig, key, path, states, regions[1..]);
        OnlyStartsOn(tx, tx1, r.value);
      } else {
        StartChildrenOnlyStarts(reg, tx, trig, key, path, states, regions[1..]);
      }
    }
  }

  lemma OnlyStartsOn(tx: Tx, tx1: Tx, tx2: Tx)
    requires OnlyStarts(tx, tx1) && OnlyStarts(tx1, tx2)
    ensures OnlyStarts(tx, tx2)
  {
    assert tx2.events[..|tx.events|] == tx2.events[..|tx1.events|][..|tx.events|];
    assert forall i :: 0 <= i < |tx1.events| ==> tx2.events[i] == tx1.events[i];
  }

  // ---------------------------------------------------------------- lifecycle

  /** The writer is as the reasons of its children's cancellations will say, and `cause` is its row. */
  ghost predicate WriterDone(start: map<Key, Entity>, tx: Tx, key: Key, ended: bool, cause: RowRef) {
    && key in tx.entities
    && (if ended then IsCompleted(tx.entities[key]) else tx.entities[key].Live())
    && (key in start ==> start[key].version < tx.entities[key].version)
    && 1 <= cause.row <= |tx.history| && tx.history[cause.row - 1].entity == key
    && tx.history[cause.row - 1].identity == cause.key && !cause.key.JoinId? && !cause.key.CancelId?
  }

  lemma WriterStays(start: map<Key, Entity>, tx: Tx, tx': Tx, key: Key, ended: bool, cause: RowRef)
    requires WriterDone(start, tx, key, ended, cause) && tx.history <= tx'.history
    requires key in tx'.entities && tx'.entities[key] == tx.entities[key]
    ensures WriterDone(start, tx', key, ended, cause)
  {
    assert tx'.history[cause.row - 1] == tx'.history[..|tx.history|][cause.row - 1];
  }

  /** The child of a region that the write left. Only the written entity can be pending. */
  lemma LeftOrder(
    reg: Registry, start: map<Key, Entity>, tx: Tx, trig: Trigger, key: Key, was: Entity, ended: bool,
    hole: Option<Place>, todo: seq<string>, r0: string, reason: CancelReason, cancelledBy: RowRef,
    pending: Option<Key>)
    requires EventsOk(start, tx, pending) && LedgerOk(reg, tx.entities, tx.history, pending) && key.machine in reg
    requires MidTree(reg, tx.entities, key, was, ended, hole, todo) && (pending.Some? ==> pending == Some(key))
    requires r0 in todo && Left(tx.entities[key], was, ended, r0)
    requires WriterDone(start, tx, key, ended, cancelledBy) && reason == (if ended then ParentCompleted else ParentExit)
    ensures var r := CancelChildOf(reg, tx, trig, key, r0, was.states[r0], reason, cancelledBy);
            r.Ok? && EventsOk(start, r.value, pending)
  {
    if InManaged(reg, key, was, r0) {
      var c := ChildOf(reg, key, was, r0);
      assert LeftChild(reg, tx.entities, key, was, ended, r0);
      if tx.entities[c].IsActiveChild() {
        MidSubtree(reg, tx.entities, key, was, ended, hole, todo, StepOf(key, was, r0));
        assert TopReason(start, tx.entities, c, reason);
        assert WriteAbove(tx.entities, tx.history, cancelledBy, c);
        CancelSubtreeOrder(reg, start, tx, trig, c, reason, cancelledBy, pending);
      }
    }
  }

  lemma LifecycleOfRegionOrder(
    reg: Registry, start: map<Key, Entity>, tx: Tx, trig: Trigger, key: Key, was: Entity,
    before: map<string, RegionEntry>, after: map<string, RegionEntry>, r0: string, rest: seq<string>, ended: bool,
    hole: Option<Place>, cancelledBy: RowRef, pending: Option<Key>)
    requires EventsOk(start, tx, pending) && LedgerOk(reg, tx.entities, tx.history, pending) && key.machine in reg
    requires MidTree(reg, tx.entities, key, was, ended, hole, [r0] + rest) && (pending.Some? ==> pending == Some(key))
    requires EntriesOf(tx.entities[key], was, before, after) && r0 in was.states
    requires WriterDone(start, tx, key, ended, cancelledBy)
    ensures var r := LifecycleOfRegion(reg, tx, trig, key, was.Path(), before, after, r0, ended, cancelledBy);
            r.Ok? ==> EventsOk(start, r.value, pending)
  {
    var e := tx.entities[key];
    RegionSteps(reg, tx, trig, key, was, e, before, after, r0, ended, cancelledBy);
    if Left(e, was, ended, r0) {
      var reason := if ended then ParentCompleted else ParentExit;
      LeftOrder(reg, start, tx, trig, key, was, ended, hole, [r0] + rest, r0, reason, cancelledBy, pending);
      var tx1 := CancelChildOf(reg, tx, trig, key, r0, was.states[r0], reason, cancelledBy).value;
      if !ended && InManaged(reg, key, e, r0) {
        StartOrder(reg, start, tx1, trig, key, was.Path(), r0, e.states[r0], EntryOf(e, r0).entry, pending);
      }
    }
  }

  lemma StartOrder(
    reg: Registry, start: map<Key, Entity>, tx: Tx, trig: Trigger, key: Key, path: seq<Step>, region: string,
    state: string, entry: int, pending: Option<Key>)
    requires EventsOk(start, tx, pending) && key.machine in reg
    ensures var r := StartChild(reg, tx, trig, key, path, region, state, entry);
            r.Ok? ==> EventsOk(start, r.value, pending)
  {
    var r := StartChild(reg, tx, trig, key, path, region, state, entry);
    if r.Ok? {
      StartChildGrows(reg, tx, trig, key, path, region, state, entry);
      StartChildOnlyStarts(reg, tx, trig, key, path, region, state, entry);
      StillRunning(start, tx, r.value, pending);
    }
  }

  /** One region: the events, and what the next one needs. */
  lemma RegionVisited(
    reg: Registry, start: map<Key, Entity>, tx: Tx, trig: Trigger, key: Key, was: Entity,
    before: map<string, RegionEntry>, after: map<string, RegionEntry>, r0: string, rest: seq<string>, ended: bool,
    hole: Option<Place>, cancelledBy: RowRef, pending: Option<Key>)
    requires EventsOk(start, tx, pending) && LedgerOk(reg, tx.entities, tx.history, pending) && key.machine in reg
    requires MidTree(reg, tx.entities, key, was, ended, hole, [r0] + rest) && (pending.Some? ==> pending == Some(key))
    requires EntriesOf(tx.entities[key], was, before, after) && r0 in was.states
    requires WriterDone(start, tx, key, ended, cancelledBy)
    ensures var r := LifecycleOfRegion(reg, tx, trig, key, was.Path(), before, after, r0, ended, cancelledBy);
            r.Ok? ==>
              && EventsOk(start, r.value, pending) && WriterDone(start, r.value, key, ended, cancelledBy)
              && LifecycleDone(reg, tx, r.value, key, was, ended, hole, [r0], rest, pending)
  {
    LifecycleOfRegionOrder(reg, start, tx, trig, key, was, before, after, r0, rest, ended, hole, cancelledBy, pending);
    LifecycleOfRegionTree(reg, tx, trig, key, was, before, after, r0, rest, ended, hole, cancelledBy, pending);
    LifecycleOfRegionGrows(reg, tx, trig, key, was.Path(), before, after, r0, ended, cancelledBy);
    var r := LifecycleOfRegion(reg, tx, trig, key, was.Path(), before, after, r0, ended, cancelledBy);
    if r.Ok? {
      WriterStays(start, tx, r.value, key, ended, cancelledBy);
    }
  }

  lemma {:induction false} ApplyChildLifecycleOrder(
    reg: Registry, start: map<Key, Entity>, tx: Tx, trig: Trigger, key: Key, was: Entity,
    before: map<string, RegionEntry>, after: map<string, RegionEntry>, regions: seq<string>, ended: bool,
    hole: Option<Place>, cancelledBy: RowRef, pending: Option<Key>)
    requires EventsOk(start, tx, pending) && LedgerOk(reg, tx.entities, tx.history, pending) && key.machine in reg
    requires MidTree(reg, tx.entities, key, was, ended, hole, regions) && (pending.Some? ==> pending == Some(key))
    requires EntriesOf(tx.entities[key], was, before, after)
    requires NoDups(regions) && forall r :: r in regions ==> r in was.states
    requires WriterDone(start, tx, key, ended, cancelledBy)
    ensures var r := ApplyChildLifecycle(reg, tx, trig, key, was.Path(), before, after, regions, ended, cancelledBy);
            r.Ok? ==> EventsOk(start, r.value, pending)
    decreases |regions|
  {
    var r := ApplyChildLifecycle(reg, tx, trig, key, was.Path(), before, after, regions, ended, cancelledBy);
    if r.Ok? && regions != [] {
      var r0, rest := regions[0], regions[1..];
      assert regions == [r0] + rest;
      RegionVisited(reg, start, tx, trig, key, was, before, after, r0, rest, ended, hole, cancelledBy, pending);
      var tx1 := LifecycleOfRegion(reg, tx, trig, key, was.Path(), before, after, r0, ended, cancelledBy).value;
      ApplyChildLifecycleOrder(reg, start, tx1, trig, key, was, before, after, rest, ended, hole, cancelledBy, pending);
    }
  }

  // ---------------------------------------------------------------- the write path

  lemma OwnWriteOrder(
    reg: Registry, start: map<Key, Entity>, tx: Tx, trig: Trigger, key: Key, e: Entity, spec: WriteSpec)
    requires EventsOk(start, tx, None) && WriteReady(reg, tx, trig.now, key, e, spec)
    ensures key.machine in reg && WriteOwn(reg, tx, trig.now, key, e, spec).Ok?
    ensures var w := WriteOwn(reg, tx, trig.now, key, e, spec).value;
            var r := ApplyChildLifecycle(reg, w.tx, trig, key, e.Path(), EffectiveEntries(e), w.entries.regions,
                                         SortedKeys(w.entries.regions.Keys), w.completion.Some?, w.row);
            r.Ok? ==> EventsOk(start, r.value, PendingAfter(key, w))
  {
    OwnWriteMoves(reg, tx, trig.now, key, e, spec);
    WriteOwnEffect(reg, tx, trig.now, key, e, spec);
    var w := WriteOwn(reg, tx, trig.now, key, e, spec).value;
    OwnWriteKept(reg, tx, trig.now, key, e, spec, w);
    OwnQuiet(reg, start, tx, trig.now, key, e, spec, w);
    SortedKeysOrder(e.states.Keys);
    OwnWriterDone(reg, start, tx, trig.now, key, e, spec, w);
    ApplyChildLifecycleOrder(reg, start, w.tx, trig, key, e, EffectiveEntries(e), w.entries.regions,
                             SortedKeys(e.states.Keys), w.completion.Some?, HoleAbove(w.tx.entities[key]), w.row,
                             PendingAfter(key, w));
  }

  lemma OwnWriterDone(
    reg: Registry, start: map<Key, Entity>, tx: Tx, now: int, key: Key, e: Entity, spec: WriteSpec, w: OwnWrite)
    requires AllKept(start, tx.entities) && Stored(tx, key, e) && e.Live()
    requires OwnEffect(reg, tx, now, key, e, spec, w)
    requires SpecOk(reg, key, e, spec)
    ensures WriterDone(start, w.tx, key, w.completion.Some?, w.row)
  {
    assert KeptAt(start, tx.entities, key);
    assert w.tx.history[|tx.history|] == WriteRows(key, e, spec, now)[0];
  }

  lemma OwnQuiet(
    reg: Registry, start: map<Key, Entity>, tx: Tx, now: int, key: Key, e: Entity, spec: WriteSpec, w: OwnWrite)
    requires EventsOk(start, tx, None) && Stored(tx, key, e) && e.Live() && OwnEffect(reg, tx, now, key, e, spec, w)
    ensures EventsOk(start, w.tx, PendingAfter(key, w))
  {
    OwnWriteKept(reg, tx, now, key, e, spec, w);
    Quiet(start, tx, w.tx, None, PendingAfter(key, w));
  }

  /** Nothing below an ended instance is active. */
  lemma {:induction false} EndedAbove(
    reg: Registry, entities: map<Key, Entity>, hole: Option<Place>, a: Key, d: Key)
    requires TreeOk(reg, entities, hole) && forall k :: k in entities ==> InstanceOk(reg, k, entities[k])
    requires a in entities && entities[a].instance.Some? && !entities[a].Live()
    requires d in entities && entities[d].IsActiveChild()
    ensures !(entities[a].Path() < entities[d].Path())
    decreases |entities[d].Path()|
  {
    var base := entities[a].Path();
    if base < entities[d].Path() {
      assert Up(reg, entities, d);
      var i := entities[d].instance.value;
      var parent := ParentKey(i.link);
      assert base <= entities[parent].Path();
      if base == entities[parent].Path() {
        SamePath(reg, a, entities[a], parent, entities[parent]);
      } else {
        EndedAbove(reg, entities, hole, a, parent);
      }
    }
  }

  /** The event of a completed instance: nothing below it is running any more. */
  lemma FinishedOrder(
    reg: Registry, start: map<Key, Entity>, tx: Tx, child: Key, instance: Instance, end: RowRef, target: string,
    hole: Option<Place>)
    requires EventsOk(start, tx, Some(child)) && LedgerOk(reg, tx.entities, tx.history, Some(child))
    requires child in tx.entities && tx.entities[child].instance == Some(instance) && instance.status == Completed
    requires TreeOk(reg, tx.entities, hole)
    ensures EventsOk(
      start, tx.(events := tx.events + [Finished(child, instance.depth, instance.link, end, target, None)]), None)
  {
    var n := |tx.events|;
    var tx' := tx.(events := tx.events + [Finished(child, instance.depth, instance.link, end, target, None)]);
    AllInstancesOk(reg, tx.entities, tx.history, Some(child));
    ReasonsAppend(start, tx, tx');
    forall i, d | 0 <= i < n && EndsOld(start, tx'.events[i]) && Running(start, tx.entities, Some(child), d)
      ensures NotAbove(start, tx'.events, i, d)
    {
      assert NotAbove(start, tx.events, i, d);
    }
    forall i, j | 0 <= i < j <= n && EndsOld(start, tx'.events[i]) && EndsOld(start, tx'.events[j])
      ensures NotAbove(start, tx'.events, i, tx'.events[j].child)
    {
      if j < n {
        assert NotAbove(start, tx.events, i, tx.events[j].child);
      }
    }
    forall d | child in start && Running(start, tx.entities, None, d) ensures NotAbove(start, tx'.events, n, d) {
      assert KeptAt(start, tx.entities, child) && KeptAt(start, tx.entities, d);
      EndedAbove(reg, tx.entities, hole, child, d);
    }
  }

  lemma PatchOrder(start: map<Key, Entity>, tx: Tx, index: nat, patched: InstanceEvent)
    requires EventsOk(start, tx, None) && index < |tx.events|
    requires tx.events[index].Finished? && patched.Finished? && patched.child == tx.events[index].child
    ensures EventsOk(start, tx.(events := tx.events[index := patched]), None)
  {
    var tx' := tx.(events := tx.events[index := patched]);
    forall i | 0 <= i < |tx'.events| ensures ReasonTrueAt(start, tx', i) {
      assert ReasonTrueAt(start, tx, i);
    }
    assert forall i :: 0 <= i < |tx.events| ==> EndsOld(start, tx'.events[i]) == EndsOld(start, tx.events[i]);
    forall i, j | 0 <= i < j < |tx'.events| && EndsOld(start, tx'.events[i]) && EndsOld(start, tx'.events[j])
      ensures NotAbove(start, tx'.events, i, tx'.events[j].child)
    {
      assert NotAbove(start, tx.events, i, tx.events[j].child);
    }
    forall i, d | 0 <= i < |tx'.events| && EndsOld(start, tx'.events[i]) && Running(start, tx'.entities, None, d)
      ensures NotAbove(start, tx'.events, i, d)
    {
      assert NotAbove(start, tx.events, i, d);
    }
  }

  lemma {:induction false} WriteEntityOrder(
    reg: Registry, start: map<Key, Entity>, tx: Tx, trig: Trigger, key: Key, entity: Entity, spec: WriteSpec)
    requires EventsOk(start, tx, None) && WriteReady(reg, tx, trig.now, key, entity, spec)
    ensures var r := WriteEntity(reg, tx, trig, key, entity, spec); r.Ok? ==> EventsOk(start, r.value.0, None)
    decreases ActiveKeys(tx.entities), 0
  {
    var r := WriteEntity(reg, tx, trig, key, entity, spec);
    if r.Ok? {
      OwnWriteEnds(reg, tx, trig.now, key, entity, spec);
      OwnLifecycle(reg, tx, trig, key, entity, spec);
      OwnWriteOrder(reg, start, tx, trig, key, entity, spec);
      var w := WriteOwn(reg, tx, trig.now, key, entity, spec).value;
      var tx1 := ApplyChildLifecycle(reg, w.tx, trig, key, entity.Path(), EffectiveEntries(entity), w.entries.regions,
                                     SortedKeys(w.entries.regions.Keys), w.completion.Some?, w.row).value;
      if w.completion.Some? {
        CompletionAwaits(reg, tx, trig.now, key, entity, spec, tx1, w);
        CompleteParentOrder(reg, start, tx1, trig, key, Encode(spec.newStates), w.instance.value, w.completion.value,
                            w.row);
      }
    }
  }

  lemma {:induction false} CompleteParentOrder(
    reg: Registry, start: map<Key, Entity>, tx: Tx, trig: Trigger, child: Key, childState: Encoded,
    instance: Instance, target: string, end: RowRef)
    requires EventsOk(start, tx, Some(child))
    requires WellFormedRegistry(reg) && LedgerOk(reg, tx.entities, tx.history, Some(child))
    requires ParentKey(instance.link) in tx.entities
    requires ParentWaits(reg, tx, child, childState, instance, target, end,
                         RootOf(ParentKey(instance.link), tx.entities[ParentKey(instance.link)]))
    ensures var r := CompleteParent(reg, tx, trig, child, childState, instance, target, end);
            r.Ok? ==> EventsOk(start, r.value, None)
    decreases ActiveKeys(tx.entities), 1
  {
    var r := CompleteParent(reg, tx, trig, child, childState, instance, target, end);
    if r.Ok? {
      var link := instance.link;
      var parentKey := ParentKey(link);
      var parent := tx.entities[parentKey];
      var tx1 := tx.(events := tx.events + [Finished(child, instance.depth, link, end, target, None)]);
      FinishedOrder(reg, start, tx, child, instance, end, target, Some(Place(parentKey, link.region)));
      AdvanceReady(reg, tx, trig, child, childState, instance, target, end);
      var cause := AdvanceCause(trig, link, EntryOf(parent, link.region), child, childState, end);
      var spec := AdvanceSpec(reg[link.machine], parent, link.region, link.state, target, trig.timestamp, cause);
      WriteEntityOrder(reg, start, tx1, trig, parentKey, parent, spec);
      WriteEntityGrows(reg, tx1, trig, parentKey, parent, spec);
      var tx2 := WriteEntity(reg, tx1, trig, parentKey, parent, spec).value.0;
      PatchOrder(start, tx2, |tx.events|, r.value.events[|tx.events|]);
    }
  }

  // ---------------------------------------------------------------- commits

  lemma ServeOrder(reg: Registry, db: Db, request: Request)
    requires WellFormedRegistry(reg) && Consistent(reg, db) && !request.Create? && request.key.machine in reg
    ensures var r := ServeTx(reg, db, request);
            r.Ok? && r.value.Some? ==> EventsOk(db.entities, r.value.value, None)
  {
    RequestWrites(reg, db, request);
    var answer := ServeTx(reg, db, request);
    if answer.Ok? && answer.value.Some? {
      var h, spec :| WriteGives(reg, db, request, h, spec, Ok(answer.value.value));
      WriteEntityOrder(reg, db.entities, Begin(db), TriggerOf(request), h, db.entities[h], spec);
    }
  }

  /** A commit ends only instances that it found, and a creation ends none. */
  lemma EndsFound(reg: Registry, run: seq<Served>, n: nat, i: nat)
    requires WellFormedRegistry(reg) && IsRun(reg, run) && n < |run|
    requires run[n].Commits() && i < |run[n].Committed().events| && IsEnd(run[n].Committed().events[i])
    ensures run[n].Committed().events[i].child in StoreAt(run, n).entities && !run[n].request.Create?
  {
    CommitLogExact(reg, run, n, run[n].Committed().events[i].child);
    ServedSettles(reg, run, n);
  }

  lemma CommitOrder(reg: Registry, run: seq<Served>, n: nat)
    requires WellFormedRegistry(reg) && IsRun(reg, run) && n < |run|
    requires run[n].Commits() && !run[n].request.Create?
    ensures EventsOk(StoreAt(run, n).entities, run[n].Committed(), None)
  {
    ReachableConsistent(reg, run, n);
    assert ServedAt(reg, run, n);
    ServeOrder(reg, StoreAt(run, n), run[n].request);
  }

  /** A cancellation's reason is what became of the parent in the same commit: it went on and left the
      state, it completed, or it was cancelled itself. Its row names the write above it that caused it. */
  lemma ReasonsAreTrue(reg: Registry, run: seq<Served>, n: nat, i: nat)
    requires WellFormedRegistry(reg) && IsRun(reg, run) && n < |run|
    requires run[n].Commits() && i < |run[n].Committed().events|
    ensures var entities, entities', event := StoreAt(run, n).entities, StoreAt(run, n + 1).entities,
                run[n].Committed().events[i];
            event.Dropped? ==>
              var parent := ParentKey(event.parent);
              && parent in entities && parent in entities' && entities'[parent] != entities[parent]
              && ReasonFits(event.reason, entities'[parent])
              && CauseTrue(entities', StoreAt(run, n + 1).history, event)
  {
    var event := run[n].Committed().events[i];
    if event.Dropped? {
      EndsFound(reg, run, n, i);
      CommitOrder(reg, run, n);
      CommitLogTrue(reg, run, n, event);
      ReachableConsistent(reg, run, n);
      CommitLogExact(reg, run, n, event.child);
      ServedSettles(reg, run, n);
      var db, db', request := StoreAt(run, n), StoreAt(run, n + 1), run[n].request;
      var parent := ParentKey(event.parent);
      RunGrows(reg, run, n, n + 1);
      assert KeptAt(db.entities, db'.entities, event.child);
      assert Up(reg, db.entities, event.child);
      assert ReasonTrueAt(db.entities, run[n].Committed(), i);
      assert TouchedAt(db.entities, db'.entities, RootOf(request.key, db.entities[request.key]), parent);
    }
  }

  /** Of two instances that end in one commit, a descendant's event comes before its ancestor's. */
  lemma EventsBottomUp(reg: Registry, run: seq<Served>, n: nat, i: nat, j: nat)
    requires WellFormedRegistry(reg) && IsRun(reg, run) && n < |run|
    requires run[n].Commits() && i < j < |run[n].Committed().events|
    ensures var entities, events := StoreAt(run, n).entities, run[n].Committed().events;
            IsEnd(events[i]) && IsEnd(events[j]) ==>
              && events[i].child in entities && events[j].child in entities
              && !(entities[events[i].child].Path() < entities[events[j].child].Path())
  {
    var events := run[n].Committed().events;
    if IsEnd(events[i]) && IsEnd(events[j]) {
      EndsFound(reg, run, n, i);
      EndsFound(reg, run, n, j);
      CommitOrder(reg, run, n);
      assert NotAbove(StoreAt(run, n).entities, events, i, events[j].child);
    }
  }
}
