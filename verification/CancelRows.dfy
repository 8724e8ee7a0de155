/** The history of a subtree cancellation: one `$sub_cancel` row for each cancelled instance and no
    other, descendants before ancestors. */
module CancelRows {
  import opened Names
  import opened Models
  import opened Store
  import opened Lifecycle
  import opened Ledger
  import opened LedgerProofs
  import opened Tree
  import opened CancelProofs
  import opened Growth

  /** The row cancels an instance that was active in `entities`. */
  ghost predicate CancelsActive(entities: map<Key, Entity>, row: Row) {
    && row.entity in entities && entities[row.entity].IsActiveChild()
    && row.identity == CancelId(entities[row.entity].instance.value.link.entry)
    && row.eventType == SubCancel
  }

  /** Row `n` is appended and cancels an instance at or below `base`. */
  ghost predicate CancelsBelow(entities: map<Key, Entity>, base: seq<Step>, history: seq<Row>, n: nat)
    requires n < |history|
  {
    CancelsActive(entities, history[n]) && base <= entities[history[n].entity].Path()
  }

  /** Row `i` is not of a proper ancestor of row `j`'s entity. */
  ghost predicate NotAncestorFirst(entities: map<Key, Entity>, history: seq<Row>, i: nat, j: nat)
    requires i < |history| && j < |history|
  {
    history[i].entity in entities && history[j].entity in entities &&
    !(entities[history[i].entity].Path() < entities[history[j].entity].Path())
  }

  ghost predicate Ordered(entities: map<Key, Entity>, history: seq<Row>, from: nat, to: nat)
    requires to <= |history|
  {
    forall i, j {:trigger NotAncestorFirst(entities, history, i, j)} :: from <= i < j < to ==>
      NotAncestorFirst(entities, history, i, j)
  }

  ghost predicate AllBelow(entities: map<Key, Entity>, base: seq<Step>, history: seq<Row>, from: nat, to: nat)
    requires to <= |history|
  {
    forall n {:trigger CancelsBelow(entities, base, history, n)} :: from <= n < to ==>
      CancelsBelow(entities, base, history, n)
  }

  /** Row `n` cancels an instance below one of the regions of `top`. */
  ghost predicate CancelsInRegions(
    reg: Registry, entities: map<Key, Entity>, top: Key, child: Entity, regions: seq<string>, history: seq<Row>,
    n: nat)
    requires n < |history|
  {
    CancelsActive(entities, history[n]) && InRegions(reg, entities, top, child, regions, history[n].entity)
  }

  ghost predicate AllInRegions(
    reg: Registry, entities: map<Key, Entity>, top: Key, child: Entity, regions: seq<string>, history: seq<Row>,
    from: nat)
  {
    forall n {:trigger CancelsInRegions(reg, entities, top, child, regions, history, n)} ::
      from <= n < |history| ==> CancelsInRegions(reg, entities, top, child, regions, history, n)
  }

  // ---------------------------------------------------------------- one subtree after another

  /** Rows of an earlier cancellation keep what they say in a longer history. */
  lemma BelowLonger(entities: map<Key, Entity>, base: seq<Step>, history: seq<Row>, longer: seq<Row>, from: nat)
    requires history <= longer
    requires AllBelow(entities, base, history, from, |history|) && Ordered(entities, history, from, |history|)
    ensures AllBelow(entities, base, longer, from, |history|) && Ordered(entities, longer, from, |history|)
  {
    assert forall n :: 0 <= n < |history| ==> longer[n] == longer[..|history|][n];
    forall n | from <= n < |history| ensures CancelsBelow(entities, base, longer, n) {
      assert CancelsBelow(entities, base, history, n);
    }
    forall i, j | from <= i < j < |history| ensures NotAncestorFirst(entities, longer, i, j) {
      assert NotAncestorFirst(entities, history, i, j);
    }
  }

  lemma RowsCompose(
    reg: Registry, entities: map<Key, Entity>, entities1: map<Key, Entity>, key: Key, child: Entity, r0: string,
    rest: seq<string>, history: seq<Row>, from: nat, mid: nat, now: int)
    requires from <= mid <= |history| && InManaged(reg, key, child, r0) && forall r :: r in rest ==> r != r0
    requires CancelledExactly(entities, entities1, child.Path() + [StepOf(key, child, r0)], now)
    requires AllBelow(entities, child.Path() + [StepOf(key, child, r0)], history, from, mid) &&
             Ordered(entities, history, from, mid)
    requires AllInRegions(reg, entities1, key, child, rest, history, mid) && Ordered(entities1, history, mid, |history|)
    ensures AllInRegions(reg, entities, key, child, [r0] + rest, history, from)
    ensures Ordered(entities, history, from, |history|)
  {
    var base, s := child.Path(), StepOf(key, child, r0);
    forall n | mid <= n < |history|
      ensures CancelsInRegions(reg, entities, key, child, rest, history, n)
      ensures !(base + [s] <= entities[history[n].entity].Path())
      ensures entities1[history[n].entity] == entities[history[n].entity]
    {
      assert CancelsInRegions(reg, entities1, key, child, rest, history, n);
      var d := history[n].entity;
      var r :| r in rest && BelowRegion(reg, entities1, key, child, r, d);
      Untouched(entities, entities1, base, s, StepOf(key, child, r), d, now);
      assert BelowRegion(reg, entities, key, child, r, d);
      if base + [s] <= entities[d].Path() {
        ExtensionsApart(base, s, StepOf(key, child, r), entities[d].Path());
      }
    }
    forall n | from <= n < |history| ensures CancelsInRegions(reg, entities, key, child, [r0] + rest, history, n) {
      RegionsSplit(reg, entities, key, child, r0, rest, history[n].entity);
      if n < mid {
        assert CancelsBelow(entities, base + [s], history, n);
        assert BelowRegion(reg, entities, key, child, r0, history[n].entity);
      } else {
        assert CancelsInRegions(reg, entities, key, child, rest, history, n);
      }
    }
    forall i, j | from <= i < j < |history| ensures NotAncestorFirst(entities, history, i, j) {
      if j < mid {
        assert NotAncestorFirst(entities, history, i, j);
      } else if mid <= i {
        assert NotAncestorFirst(entities1, history, i, j);
        assert CancelsInRegions(reg, entities, key, child, rest, history, i) &&
            CancelsInRegions(reg, entities, key, child, rest, history, j);
      } else {
        assert CancelsBelow(entities, base + [s], history, i);
        assert CancelsInRegions(reg, entities, key, child, rest, history, j);
        if entities[history[i].entity].Path() < entities[history[j].entity].Path() {
          PrefixTransitive(base + [s], entities[history[i].entity].Path(), entities[history[j].entity].Path());
        }
      }
    }
  }

  lemma RowsAppended(
    reg: Registry, tx: Tx, tx1: Tx, key: Key, child: Entity, r0: string, rest: seq<string>, history: seq<Row>,
    now: int)
    requires tx.history <= tx1.history && tx1.history <= history
    requires InManaged(reg, key, child, r0) && forall r :: r in rest ==> r != r0
    requires var below := child.Path() + [StepOf(key, child, r0)];
             && CancelledExactly(tx.entities, tx1.entities, below, now)
             && AllBelow(tx.entities, below, tx1.history, |tx.history|, |tx1.history|)
    requires Ordered(tx.entities, tx1.history, |tx.history|, |tx1.history|)
    requires AllInRegions(reg, tx1.entities, key, child, rest, history, |tx1.history|)
    requires Ordered(tx1.entities, history, |tx1.history|, |history|)
    ensures tx.history <= history
    ensures AllInRegions(reg, tx.entities, key, child, [r0] + rest, history, |tx.history|)
    ensures Ordered(tx.entities, history, |tx.history|, |history|)
  {
    assert history[..|tx.history|] == history[..|tx1.history|][..|tx.history|];
    BelowLonger(tx.entities, child.Path() + [StepOf(key, child, r0)], tx1.history, history, |tx.history|);
    RowsCompose(reg, tx.entities, tx1.entities, key, child, r0, rest, history, |tx.history|, |tx1.history|, now);
  }

  /** The top's own row comes last. */
  lemma TopRowLast(
    reg: Registry, entities: map<Key, Entity>, key: Key, regions: seq<string>, history: seq<Row>, row: Row, from: nat)
    requires key in entities && entities[key].IsActiveChild() && from <= |history|
    requires AllInRegions(reg, entities, key, entities[key], regions, history, from) &&
             Ordered(entities, history, from, |history|)
    requires row.entity == key && CancelsActive(entities, row)
    ensures AllBelow(entities, entities[key].Path(), history + [row], from, |history| + 1)
    ensures Ordered(entities, history + [row], from, |history| + 1)
  {
    var child := entities[key];
    var base := child.Path();
    var h := history + [row];
    forall n | from <= n < |history|
      ensures h[n] == history[n] && CancelsActive(entities, h[n])
      ensures base <= entities[h[n].entity].Path() && |base| < |entities[h[n].entity].Path()|
    {
      assert CancelsInRegions(reg, entities, key, child, regions, history, n);
      var r :| r in regions && BelowRegion(reg, entities, key, child, r, history[n].entity);
      PrefixOfExtension(base, StepOf(key, child, r), entities[history[n].entity].Path());
    }
    forall n | from <= n < |h| ensures CancelsBelow(entities, base, h, n) {
    }
    forall i, j | from <= i < j < |h| ensures NotAncestorFirst(entities, h, i, j) {
      if j < |history| {
        assert NotAncestorFirst(entities, history, i, j);
      }
    }
  }

  lemma {:induction false} CancelSubtreeRows(
    reg: Registry, tx: Tx, trig: Trigger, key: Key, reason: CancelReason, cancelledBy: RowRef, pending: Option<Key>)
    requires LedgerOk(reg, tx.entities, tx.history, pending)
    requires key in tx.entities && tx.entities[key].IsActiveChild()
    requires SubtreeOk(reg, tx.entities, tx.entities[key].Path())
    ensures var r := CancelSubtree(reg, tx, trig, key, reason, cancelledBy);
            && r.Ok? && tx.history <= r.value.history
            && AllBelow(tx.entities, tx.entities[key].Path(), r.value.history, |tx.history|, |r.value.history|)
            && Ordered(tx.entities, r.value.history, |tx.history|, |r.value.history|)
    decreases KeysFrom(tx.entities.Keys, key.id), 1, 0
  {
    var child := tx.entities[key];
    var regions := SortedKeys(child.states.Keys);
    CancelSubtreeExact(reg, tx, trig, key, reason, cancelledBy, pending);
    CancelSubtreeGrows(reg, tx, trig, key, reason, cancelledBy);
    TopReady(reg, tx, key, pending);
    CancelChildrenRows(reg, tx, trig, key, child, regions, cancelledBy, pending);
    CancelChildrenExact(reg, tx, trig, key, child, regions, cancelledBy, pending);
    var tx1 := CancelChildren(reg, tx, trig, key, reg[key.machine], child.states, regions, cancelledBy).value;
    CancelOneEffect(tx1, trig, key, child, reason, cancelledBy);
    TopRowLast(reg, tx.entities, key, regions, tx1.history, CancelRow(key, child, trig, reason, cancelledBy),
               |tx.history|);
  }

  lemma MoreRegions(
    reg: Registry, entities: map<Key, Entity>, key: Key, child: Entity, r0: string, rest: seq<string>,
    history: seq<Row>, from: nat)
    requires AllInRegions(reg, entities, key, child, rest, history, from)
    ensures AllInRegions(reg, entities, key, child, [r0] + rest, history, from)
  {
    forall n | from <= n < |history| ensures CancelsInRegions(reg, entities, key, child, [r0] + rest, history, n) {
      assert CancelsInRegions(reg, entities, key, child, rest, history, n);
      RegionsSplit(reg, entities, key, child, r0, rest, history[n].entity);
    }
  }

  lemma {:induction false} CancelChildrenRows(
    reg: Registry, tx: Tx, trig: Trigger, key: Key, child: Entity, regions: seq<string>, cancelledBy: RowRef,
    pending: Option<Key>)
    requires LedgerOk(reg, tx.entities, tx.history, pending)
    requires RegionsReady(reg, tx.entities, key, child, regions) && key.machine in reg
    requires NoDups(regions) && forall r :: r in regions ==> r in child.states
    ensures var r := CancelChildren(reg, tx, trig, key, reg[key.machine], child.states, regions, cancelledBy);
            && r.Ok? && tx.history <= r.value.history
            && AllInRegions(reg, tx.entities, key, child, regions, r.value.history, |tx.history|)
            && Ordered(tx.entities, r.value.history, |tx.history|, |r.value.history|)
    decreases KeysFrom(tx.entities.Keys, key.id), 0, |regions|
  {
    if regions != [] {
      var r0, rest := regions[0], regions[1..];
      assert regions == [r0] + rest;
      assert RegionReady(reg, tx.entities, key, child, r0);
      assert forall r :: r in rest ==> r != r0 && RegionReady(reg, tx.entities, key, child, r);
      match reg[key.machine].ManagedSub(r0, child.states[r0])
      case None =>
        CancelChildrenRows(reg, tx, trig, key, child, rest, cancelledBy, pending);
        var h := CancelChildren(reg, tx, trig, key, reg[key.machine], child.states, rest, cancelledBy).value.history;
        MoreRegions(reg, tx.entities, key, child, r0, rest, h, |tx.history|);
      case Some(sub) =>
        ChildIsDeeper(tx.entities.Keys, key, child.states[r0]);
        var c := ChildOf(reg, key, child, r0);
        var base, s := child.Path(), StepOf(key, child, r0);
        assert tx.entities[c].Path() == base + [s];
        CancelSubtreeRows(reg, tx, trig, c, AncestorCancelled, cancelledBy, pending);
        CancelSubtreeExact(reg, tx, trig, c, AncestorCancelled, cancelledBy, pending);
        CancelSubtreeLedger(reg, tx, trig, c, AncestorCancelled, cancelledBy, pending);
        var tx1 := CancelSubtree(reg, tx, trig, c, AncestorCancelled, cancelledBy).value;
        RestReady(reg, tx.entities, tx1.entities, key, child, r0, rest, trig.now);
        CancelChildrenRows(reg, tx1, trig, key, child, rest, cancelledBy, pending);
        var h := CancelChildren(reg, tx1, trig, key, reg[key.machine], child.states, rest, cancelledBy).value.history;
        RowsAppended(reg, tx, tx1, key, child, r0, rest, h, trig.now);
    }
  }

  // ---------------------------------------------------------------- the whole cancellation

  /** An active instance has no `$sub_cancel` row. */
  lemma NoEarlierCancel(entities: map<Key, Entity>, history: seq<Row>, d: Key)
    requires RowsOk(entities, history) && d in entities && entities[d].IsActiveChild()
    ensures forall n :: 0 <= n < |history| && history[n].entity == d ==> !history[n].identity.CancelId?
  {
    forall n | 0 <= n < |history| && history[n].entity == d ensures !history[n].identity.CancelId? {
      assert RowOkAt(entities, history, n);
    }
  }

  /** The instance names the row that cancelled it, and it was appended. */
  ghost predicate EndAppended(tx: Tx, tx': Tx, d: Key)
    requires d in tx'.entities
  {
    && tx'.entities[d].instance.Some?
    && tx'.entities[d].instance.value.ended.Some?
    && var end := tx'.entities[d].instance.value.ended.value;
       |tx.history| < end.row <= |tx'.history| && tx'.history[end.row - 1].entity == d &&
           tx'.history[end.row - 1].identity == end.key
  }

  /** The appended row cancels an instance of the subtree, which names it. */
  ghost predicate RowNamed(tx: Tx, tx': Tx, base: seq<Step>, n: nat)
    requires n < |tx'.history|
  {
    && InSubtree(tx.entities, base, tx'.history[n].entity)
    && tx'.history[n].eventType == SubCancel
    && tx'.history[n].entity in tx'.entities
    && tx'.entities[tx'.history[n].entity].instance.Some?
    && tx'.entities[tx'.history[n].entity].instance.value.ended == Some(RowRef(n + 1, tx'.history[n].identity))
  }

  lemma OwnCancelRow(reg: Registry, tx: Tx, tx': Tx, base: seq<Step>, now: int, pending: Option<Key>, d: Key)
    requires LedgerOk(reg, tx.entities, tx.history, pending) && LedgerOk(reg, tx'.entities, tx'.history, pending)
    requires tx.history <= tx'.history && CancelledExactly(tx.entities, tx'.entities, base, now)
    requires InSubtree(tx.entities, base, d)
    ensures EndAppended(tx, tx', d)
    ensures tx'.entities[d].instance.value.ended.value.key == CancelId(tx.entities[d].instance.value.link.entry)
  {
    assert CancelledIn(tx.entities[d], tx'.entities[d], now);
    assert EntityOkAt(reg, tx'.entities, tx'.history, d);
    NoEarlierCancel(tx.entities, tx.history, d);
    assert forall i :: 0 <= i < |tx.history| ==> tx'.history[i] == tx.history[i];
  }

  /** An appended row is the one its instance names: identities are unique. */
  lemma AppendedCancelRow(reg: Registry, tx: Tx, tx': Tx, base: seq<Step>, now: int, pending: Option<Key>, n: nat)
    requires LedgerOk(reg, tx.entities, tx.history, pending) && LedgerOk(reg, tx'.entities, tx'.history, pending)
    requires tx.history <= tx'.history && CancelledExactly(tx.entities, tx'.entities, base, now)
    requires |tx.history| <= n < |tx'.history| && CancelsBelow(tx.entities, base, tx'.history, n)
    ensures RowNamed(tx, tx', base, n)
  {
    var d := tx'.history[n].entity;
    OwnCancelRow(reg, tx, tx', base, now, pending, d);
    var m := tx'.entities[d].instance.value.ended.value.row - 1;
    assert m < n ==> Distinct(tx'.history, m, n);
    assert n < m ==> Distinct(tx'.history, n, m);
  }

  /** One row for each cancelled instance, and none besides. */
  ghost predicate RowsMatch(tx: Tx, tx': Tx, base: seq<Step>) {
    && tx.history <= tx'.history
    && tx'.entities.Keys == tx.entities.Keys
    && (forall n {:trigger RowNamed(tx, tx', base, n)} :: |tx.history| <= n < |tx'.history| ==>
      RowNamed(tx, tx', base, n))
    && (forall d {:trigger InSubtree(tx.entities, base, d)} :: InSubtree(tx.entities, base, d) ==>
      EndAppended(tx, tx', d))
  }

  lemma CancelRowsMatch(reg: Registry, tx: Tx, tx': Tx, base: seq<Step>, now: int, pending: Option<Key>)
    requires LedgerOk(reg, tx.entities, tx.history, pending) && LedgerOk(reg, tx'.entities, tx'.history, pending)
    requires tx.history <= tx'.history && CancelledExactly(tx.entities, tx'.entities, base, now)
    requires AllBelow(tx.entities, base, tx'.history, |tx.history|, |tx'.history|)
    ensures RowsMatch(tx, tx', base)
  {
    forall d | InSubtree(tx.entities, base, d) ensures EndAppended(tx, tx', d) {
      OwnCancelRow(reg, tx, tx', base, now, pending, d);
    }
    forall n | |tx.history| <= n < |tx'.history| ensures RowNamed(tx, tx', base, n) {
      assert CancelsBelow(tx.entities, base, tx'.history, n);
      AppendedCancelRow(reg, tx, tx', base, now, pending, n);
    }
  }

  // ---------------------------------------------------------------- attribution

  /** The row has no params and no region, the trigger's timestamp and the transaction's time. */
  ghost predicate Bare(row: Row, trig: Trigger) {
    row.params == map[] && row.region == "" && row.timestamp == trig.timestamp && row.createdAt == trig.now
  }

  /** The row cancels because an ancestor was cancelled, on behalf of `cause`; it changes no state. */
  ghost predicate ByAncestor(row: Row, cause: RowRef, trig: Trigger) {
    && row.cause.CancelCause? && row.cause.reason == AncestorCancelled && row.cause.cancelledBy == cause
    && row.from == row.to && Bare(row, trig)
  }

  ghost predicate AllByAncestor(history: seq<Row>, from: nat, to: nat, cause: RowRef, trig: Trigger)
    requires to <= |history|
  {
    forall n {:trigger history[n]} :: from <= n < to ==> ByAncestor(history[n], cause, trig)
  }

  /** The last row is the top's own and has its reason; all others say that an ancestor was cancelled. */
  ghost predicate Attributed(tx: Tx, history: seq<Row>, key: Key, reason: CancelReason, cause: RowRef, trig: Trigger)
    requires key in tx.entities && tx.entities[key].instance.Some?
  {
    && |tx.history| < |history|
    && AllByAncestor(history, |tx.history|, |history| - 1, cause, trig)
    && history[|history| - 1].entity == key
    && history[|history| - 1].cause == CancelCause(reason, tx.entities[key].instance.value.link, cause)
    && history[|history| - 1].from == history[|history| - 1].to == Encode(tx.entities[key].states)
    && Bare(history[|history| - 1], trig)
  }

  lemma {:induction false} CancelSubtreeAttributed(
    reg: Registry, tx: Tx, trig: Trigger, key: Key, reason: CancelReason, cause: RowRef)
    requires key in tx.entities && tx.entities[key].IsActiveChild()
    ensures var r := CancelSubtree(reg, tx, trig, key, reason, cause);
            r.Ok? ==> Attributed(tx, r.value.history, key, reason, cause, trig)
    decreases KeysFrom(tx.entities.Keys, key.id), 1, 0
  {
    var r := CancelSubtree(reg, tx, trig, key, reason, cause);
    if r.Ok? {
      var states := tx.entities[key].states;
      var regions := SortedKeys(states.Keys);
      CancelChildrenAttributed(reg, tx, trig, key, reg[key.machine], states, regions, cause);
      CancelChildrenGrows(reg, tx, trig, key, reg[key.machine], states, regions, cause);
    }
  }

  lemma {:induction false} CancelChildrenAttributed(
    reg: Registry, tx: Tx, trig: Trigger, key: Key, machine: Machine, states: StateMap, regions: seq<string>,
    cause: RowRef)
    requires key in tx.entities
    requires forall r :: r in regions ==> r in states
    ensures var r := CancelChildren(reg, tx, trig, key, machine, states, regions, cause);
            r.Ok? ==> AllByAncestor(r.value.history, |tx.history|, |r.value.history|, cause, trig)
    decreases KeysFrom(tx.entities.Keys, key.id), 0, |regions|
  {
    var r := CancelChildren(reg, tx, trig, key, machine, states, regions, cause);
    if r.Ok? && regions != [] {
      var state := states[regions[0]];
      match machine.ManagedSub(regions[0], state)
      case None =>
        CancelChildrenAttributed(reg, tx, trig, key, machine, states, regions[1..], cause);
      case Some(sub) =>
        ChildIsDeeper(tx.entities.Keys, key, state);
        var child := ChildKey(sub, key.id, state);
        if child in tx.entities && tx.entities[child].IsActiveChild() {
          CancelSubtreeAttributed(reg, tx, trig, child, AncestorCancelled, cause);
        }
        var tx1 := CancelSubtree(reg, tx, trig, child, AncestorCancelled, cause).value;
        CancelChildrenAttributed(reg, tx1, trig, key, machine, states, regions[1..], cause);
        CancelChildrenGrows(reg, tx1, trig, key, machine, states, regions[1..], cause);
        AttributedOn(tx.history, tx1.history, r.value.history, cause, trig);
    }
  }

  lemma AttributedOn(history: seq<Row>, history1: seq<Row>, history2: seq<Row>, cause: RowRef, trig: Trigger)
    requires AllByAncestor(history1, |history|, |history1|, cause, trig) && history1 <= history2
    requires AllByAncestor(history2, |history1|, |history2|, cause, trig)
    ensures AllByAncestor(history2, |history|, |history2|, cause, trig)
  {
    forall n | |history| <= n < |history2| ensures ByAncestor(history2[n], cause, trig) {
      if n < |history1| {
        assert history2[..|history1|][n] == history1[n];
      }
    }
  }

  /** Cancelling an active instance cannot fail. It cancels exactly the active instances at or below
      it, changes no other entity, and appends exactly one row for each, descendants first. The rows
      name what caused them: the given reason for the instance itself, its cancellation for the rest. */
  lemma SubtreeCancellation(
    reg: Registry, tx: Tx, trig: Trigger, key: Key, reason: CancelReason, cancelledBy: RowRef, pending: Option<Key>)
    requires LedgerOk(reg, tx.entities, tx.history, pending)
    requires key in tx.entities && tx.entities[key].IsActiveChild()
    requires SubtreeOk(reg, tx.entities, tx.entities[key].Path())
    ensures var r := CancelSubtree(reg, tx, trig, key, reason, cancelledBy);
            && r.Ok?
            && CancelledExactly(tx.entities, r.value.entities, tx.entities[key].Path(), trig.now)
            && RowsMatch(tx, r.value, tx.entities[key].Path())
            && Ordered(tx.entities, r.value.history, |tx.history|, |r.value.history|)
            && Attributed(tx, r.value.history, key, reason, cancelledBy, trig)
  {
    CancelSubtreeAttributed(reg, tx, trig, key, reason, cancelledBy);
    CancelSubtreeExact(reg, tx, trig, key, reason, cancelledBy, pending);
    CancelSubtreeRows(reg, tx, trig, key, reason, cancelledBy, pending);
    CancelSubtreeLedger(reg, tx, trig, key, reason, cancelledBy, pending);
    var tx' := CancelSubtree(reg, tx, trig, key, reason, cancelledBy).value;
    CancelRowsMatch(reg, tx, tx', tx.entities[key].Path(), trig.now, pending);
  }

  /** In a committed store every subtree is in order. */
  lemma ConsistentSubtree(reg: Registry, entities: map<Key, Entity>, base: seq<Step>)
    requires TreeOk(reg, entities, None)
    ensures SubtreeOk(reg, entities, base)
  {
    forall d | InSubtree(entities, base, d) ensures SubtreeNode(reg, entities, base, d) {
      forall r | r in entities[d].states ensures Down(reg, entities, d, r, true) {
        assert DownAt(reg, entities, None, d, r);
      }
      assert Up(reg, entities, d);
    }
  }
}
