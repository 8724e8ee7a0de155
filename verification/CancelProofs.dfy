/** Subtree cancellation is complete and exact, and cannot fail. */
module CancelProofs {
  import opened Names
  import opened Models
  import opened Store
  import opened Lifecycle
  import opened Ledger
  import opened LedgerProofs
  import opened Tree

  // ---------------------------------------------------------------- what a cancellation did

  /** `e'` is the active instance `e`, cancelled at `now` by its own row. */
  ghost predicate CancelledIn(e: Entity, e': Entity, now: int) {
    && e.instance.Some?
    && e'.instance.Some? && e'.instance.value.ended.Some?
    && e'.instance.value.ended.value.key == CancelId(e.instance.value.link.entry)
    && e' == CancelledEntity(e, e'.instance.value.ended.value, now)
  }

  /** Exactly the active instances at or below `base` were cancelled; no other entity changed. */
  ghost predicate CancelledExactly(entities: map<Key, Entity>, entities': map<Key, Entity>, base: seq<Step>, now: int) {
    && entities'.Keys == entities.Keys
    && forall d {:trigger InSubtree(entities, base, d)} {:trigger entities'[d]} :: d in entities ==>
         if InSubtree(entities, base, d) then CancelledIn(entities[d], entities'[d], now)
         else entities'[d] == entities[d]
  }

  /** Likewise for the children of `top` in some of its regions. */
  ghost predicate InRegions(
    reg: Registry, entities: map<Key, Entity>, top: Key, child: Entity, regions: seq<string>, d: Key)
  {
    exists r {:trigger BelowRegion(reg, entities, top, child, r, d)} :: r in regions &&
        BelowRegion(reg, entities, top, child, r, d)
  }

  ghost predicate BelowRegion(reg: Registry, entities: map<Key, Entity>, top: Key, child: Entity, r: string, d: Key) {
    InManaged(reg, top, child, r) && InSubtree(entities, child.Path() + [StepOf(top, child, r)], d)
  }

  ghost predicate CancelledRegions(
    reg: Registry, entities: map<Key, Entity>, entities': map<Key, Entity>, top: Key, child: Entity,
    regions: seq<string>, now: int)
  {
    && entities'.Keys == entities.Keys
    && forall d {:trigger entities'[d]} :: d in entities ==>
         if InRegions(reg, entities, top, child, regions, d) then CancelledIn(entities[d], entities'[d], now)
         else entities'[d] == entities[d]
  }

  // ---------------------------------------------------------------- frames

  /** Cancelling one subtree leaves a disjoint one in order. */
  lemma SubtreeFrame(
    reg: Registry, entities: map<Key, Entity>, entities': map<Key, Entity>, base: seq<Step>, s: Step, t: Step,
    now: int)
    requires CancelledExactly(entities, entities', base + [s], now) && s != t
    requires SubtreeOk(reg, entities, base + [t])
    ensures SubtreeOk(reg, entities', base + [t])
  {
    forall d | InSubtree(entities', base + [t], d) ensures SubtreeNode(reg, entities', base + [t], d) {
      Untouched(entities, entities', base, s, t, d, now);
      assert SubtreeNode(reg, entities, base + [t], d);
      forall r | r in entities'[d].states ensures Down(reg, entities', d, r, true) {
        assert Down(reg, entities, d, r, true);
        if InManaged(reg, d, entities[d], r) {
          var c := ChildOf(reg, d, entities[d], r);
          assert InSubtree(entities, base + [t], c);
          Untouched(entities, entities', base, s, t, c, now);
        }
      }
      if |base + [t]| < |entities[d].Path()| {
        ParentInSubtree(reg, entities, base + [t], d);
        Untouched(entities, entities', base, s, t, ParentKey(entities[d].instance.value.link), now);
      }
    }
  }

  lemma Untouched(
    entities: map<Key, Entity>, entities': map<Key, Entity>, base: seq<Step>, s: Step, t: Step, d: Key, now: int)
    requires CancelledExactly(entities, entities', base + [s], now) && s != t
    requires InSubtree(entities, base + [t], d) || InSubtree(entities', base + [t], d)
    ensures d in entities && entities'[d] == entities[d] && InSubtree(entities, base + [t], d)
  {
    if InSubtree(entities, base + [s], d) {
      assert CancelledIn(entities[d], entities'[d], now);
      ExtensionsApart(base, s, t, entities[d].Path());
    }
  }

  // ---------------------------------------------------------------- the subtree

  /** The children of the regions still to be visited are in order. */
  ghost predicate RegionReady(reg: Registry, entities: map<Key, Entity>, top: Key, child: Entity, r: string) {
    && r in child.states
    && Down(reg, entities, top, r, true)
    && SubtreeOk(reg, entities, child.Path() + [StepOf(top, child, r)])
  }

  ghost predicate RegionsReady(
    reg: Registry, entities: map<Key, Entity>, top: Key, child: Entity, regions: seq<string>)
  {
    && top in entities && entities[top] == child && child.Live()
    && forall r {:trigger RegionReady(reg, entities, top, child, r)} :: r in regions ==>
      RegionReady(reg, entities, top, child, r)
  }

  lemma SubtreeNarrows(reg: Registry, entities: map<Key, Entity>, base: seq<Step>, s: Step)
    requires SubtreeOk(reg, entities, base)
    ensures SubtreeOk(reg, entities, base + [s])
  {
    forall d | InSubtree(entities, base + [s], d) ensures SubtreeNode(reg, entities, base + [s], d) {
      PrefixOfExtension(base, s, entities[d].Path());
      assert InSubtree(entities, base, d);
    }
  }

  lemma {:induction false} CancelSubtreeExact(
    reg: Registry, tx: Tx, trig: Trigger, key: Key, reason: CancelReason, cancelledBy: RowRef, pending: Option<Key>)
    requires LedgerOk(reg, tx.entities, tx.history, pending)
    requires key in tx.entities && tx.entities[key].IsActiveChild()
    requires SubtreeOk(reg, tx.entities, tx.entities[key].Path())
    ensures var r := CancelSubtree(reg, tx, trig, key, reason, cancelledBy);
            && r.Ok?
            && CancelledExactly(tx.entities, r.value.entities, tx.entities[key].Path(), trig.now)
    decreases KeysFrom(tx.entities.Keys, key.id), 1, 0
  {
    var child := tx.entities[key];
    var regions := SortedKeys(child.states.Keys);
    TopReady(reg, tx, key, pending);
    CancelChildrenExact(reg, tx, trig, key, child, regions, cancelledBy, pending);
    CancelChildrenLedger(reg, tx, trig, key, reg[key.machine], child.states, regions, cancelledBy, pending);
    var tx1 := CancelChildren(reg, tx, trig, key, reg[key.machine], child.states, regions, cancelledBy).value;
    CancelOneWorks(reg, tx1, trig, key, child, reason, cancelledBy, pending);
    CancelOneEffect(tx1, trig, key, child, reason, cancelledBy);
    TopCancelled(reg, tx.entities, tx.history, tx1.entities, key,
                 RowRef(|tx1.history| + 1, CancelId(child.instance.value.link.entry)),
                 trig.now, pending);
  }

  /** The children's subtrees are cancelled, then the top. */
  lemma TopCancelled(
    reg: Registry, entities: map<Key, Entity>, history: seq<Row>, entities1: map<Key, Entity>, top: Key, end: RowRef,
    now: int, pending: Option<Key>)
    requires LedgerOk(reg, entities, history, pending)
    requires top in entities && entities[top].IsActiveChild() && SubtreeOk(reg, entities, entities[top].Path())
    requires CancelledRegions(reg, entities, entities1, top, entities[top], SortedKeys(entities[top].states.Keys), now)
    requires end.key == CancelId(entities[top].instance.value.link.entry)
    ensures CancelledExactly(entities, entities1[top := CancelledEntity(entities[top], end, now)],
                             entities[top].Path(), now)
  {
    var base, regions := entities[top].Path(), SortedKeys(entities[top].states.Keys);
    var entities2 := entities1[top := CancelledEntity(entities[top], end, now)];
    assert InSubtree(entities, base, top);
    forall d | d in entities
      ensures if InSubtree(entities, base, d) then CancelledIn(entities[d], entities2[d], now)
              else entities2[d] == entities[d]
    {
      if d != top {
        BelowTop(reg, entities, history, top, regions, d, pending);
      }
    }
  }

  lemma TopReady(reg: Registry, tx: Tx, key: Key, pending: Option<Key>)
    requires LedgerOk(reg, tx.entities, tx.history, pending)
    requires key in tx.entities && tx.entities[key].IsActiveChild()
    requires SubtreeOk(reg, tx.entities, tx.entities[key].Path())
    ensures key.machine in reg
    ensures RegionsReady(reg, tx.entities, key, tx.entities[key], SortedKeys(tx.entities[key].states.Keys))
    ensures NoDups(SortedKeys(tx.entities[key].states.Keys))
  {
    var child := tx.entities[key];
    var regions := SortedKeys(child.states.Keys);
    SortedKeysOrder(child.states.Keys);
    assert EntityOkAt(reg, tx.entities, tx.history, key);
    assert InSubtree(tx.entities, child.Path(), key) && SubtreeNode(reg, tx.entities, child.Path(), key);
    forall r | r in regions ensures RegionReady(reg, tx.entities, key, child, r) {
      assert Down(reg, tx.entities, key, r, true);
      SubtreeNarrows(reg, tx.entities, child.Path(), StepOf(key, child, r));
    }
  }

  /** The top of a subtree is not below any of its regions; everything else in the subtree is. */
  lemma BelowTop(
    reg: Registry, entities: map<Key, Entity>, history: seq<Row>, top: Key, regions: seq<string>, d: Key,
    pending: Option<Key>)
    requires LedgerOk(reg, entities, history, pending)
    requires top in entities && entities[top].IsActiveChild()
    requires SubtreeOk(reg, entities, entities[top].Path())
    requires forall r :: r in regions <==> r in entities[top].states
    requires d in entities && d != top
    ensures InRegions(reg, entities, top, entities[top], regions, d) <==> InSubtree(entities, entities[top].Path(), d)
  {
    var child := entities[top];
    if InRegions(reg, entities, top, child, regions, d) {
      var r :| r in regions && BelowRegion(reg, entities, top, child, r, d);
      PrefixOfExtension(child.Path(), StepOf(top, child, r), entities[d].Path());
    }
    if InSubtree(entities, child.Path(), d) {
      AllInstancesOk(reg, entities, history, pending);
      var r := DescendantRegion(reg, entities, top, d);
      assert BelowRegion(reg, entities, top, child, r, d);
    }
  }

  lemma AllInstancesOk(reg: Registry, entities: map<Key, Entity>, history: seq<Row>, pending: Option<Key>)
    requires LedgerOk(reg, entities, history, pending)
    ensures forall k :: k in entities ==> InstanceOk(reg, k, entities[k])
  {
    forall k | k in entities ensures InstanceOk(reg, k, entities[k]) {
      assert EntityOkAt(reg, entities, history, k);
    }
  }

  /** An active instance has no `$sub_cancel` row yet, and its row is the one just read. */
  lemma CancelOneWorks(
    reg: Registry, tx: Tx, trig: Trigger, key: Key, child: Entity, reason: CancelReason, cancelledBy: RowRef,
    pending: Option<Key>)
    requires LedgerOk(reg, tx.entities, tx.history, pending)
    requires Stored(tx, key, child) && child.IsActiveChild()
    ensures CancelOne(tx, trig, key, child, reason, cancelledBy).Ok?
  {
    var row := CancelRow(key, child, trig, reason, cancelledBy);
    forall i | 0 <= i < |tx.history| && tx.history[i].entity == key ensures tx.history[i].identity != row.identity {
      assert RowOkAt(tx.entities, tx.history, i);
    }
  }

  lemma {:induction false} CancelChildrenExact(
    reg: Registry, tx: Tx, trig: Trigger, key: Key, child: Entity, regions: seq<string>, cancelledBy: RowRef,
    pending: Option<Key>)
    requires LedgerOk(reg, tx.entities, tx.history, pending)
    requires RegionsReady(reg, tx.entities, key, child, regions) && key.machine in reg
    requires NoDups(regions) && forall r :: r in regions ==> r in child.states
    ensures var r := CancelChildren(reg, tx, trig, key, reg[key.machine], child.states, regions, cancelledBy);
            && r.Ok?
            && CancelledRegions(reg, tx.entities, r.value.entities, key, child, regions, trig.now)
            && r.value.entities[key] == child
    decreases KeysFrom(tx.entities.Keys, key.id), 0, |regions|
  {
    if regions != [] {
      var r0, rest := regions[0], regions[1..];
      assert regions == [r0] + rest;
      assert RegionReady(reg, tx.entities, key, child, r0);
      assert forall r :: r in rest ==> r != r0 && RegionReady(reg, tx.entities, key, child, r);
      match reg[key.machine].ManagedSub(r0, child.states[r0])
      case None =>
        CancelChildrenExact(reg, tx, trig, key, child, rest, cancelledBy, pending);
        var tx' := CancelChildren(reg, tx, trig, key, reg[key.machine], child.states, rest, cancelledBy).value;
        forall d | d in tx.entities
          ensures InRegions(reg, tx.entities, key, child, regions, d) <==>
                    InRegions(reg, tx.entities, key, child, rest, d)
        {
          RegionsSplit(reg, tx.entities, key, child, r0, rest, d);
        }
      case Some(sub) =>
        ChildIsDeeper(tx.entities.Keys, key, child.states[r0]);
        var c := ChildKey(sub, key.id, child.states[r0]);
        assert c == ChildOf(reg, key, child, r0);
        var base, s := child.Path(), StepOf(key, child, r0);
        assert tx.entities[c].Path() == base + [s];
        CancelSubtreeExact(reg, tx, trig, c, AncestorCancelled, cancelledBy, pending);
        CancelSubtreeLedger(reg, tx, trig, c, AncestorCancelled, cancelledBy, pending);
        var tx1 := CancelSubtree(reg, tx, trig, c, AncestorCancelled, cancelledBy).value;
        RestReady(reg, tx.entities, tx1.entities, key, child, r0, rest, trig.now);
        CancelChildrenExact(reg, tx1, trig, key, child, rest, cancelledBy, pending);
        var tx' := CancelChildren(reg, tx1, trig, key, reg[key.machine], child.states, rest, cancelledBy).value;
        RegionsCompose(reg, tx.entities, tx1.entities, tx'.entities, key, child, r0, rest, trig.now);
    }
  }

  lemma RegionsSplit(
    reg: Registry, entities: map<Key, Entity>, key: Key, child: Entity, r0: string, rest: seq<string>, d: Key)
    ensures InRegions(reg, entities, key, child, [r0] + rest, d) <==>
              BelowRegion(reg, entities, key, child, r0, d) || InRegions(reg, entities, key, child, rest, d)
  {
    if BelowRegion(reg, entities, key, child, r0, d) {
      assert r0 in [r0] + rest;
    }
    if InRegions(reg, entities, key, child, rest, d) {
      var r :| r in rest && BelowRegion(reg, entities, key, child, r, d);
      assert r in [r0] + rest;
    }
  }

  /** The regions after `r0` are still in order once the child of `r0` is cancelled. */
  lemma RestReady(
    reg: Registry, entities: map<Key, Entity>, entities': map<Key, Entity>, key: Key, child: Entity, r0: string,
    rest: seq<string>, now: int)
    requires RegionsReady(reg, entities, key, child, [r0] + rest)
    requires forall r :: r in rest ==> r != r0
    requires r0 in child.states
    requires CancelledExactly(entities, entities', child.Path() + [StepOf(key, child, r0)], now)
    ensures RegionsReady(reg, entities', key, child, rest)
  {
    var base, s := child.Path(), StepOf(key, child, r0);
    assert !(base + [s] <= base);
    assert entities'[key] == child;
    forall r | r in rest ensures RegionReady(reg, entities', key, child, r) {
      assert r in [r0] + rest && RegionReady(reg, entities, key, child, r);
      var t := StepOf(key, child, r);
      SubtreeFrame(reg, entities, entities', base, s, t, now);
      if InManaged(reg, key, child, r) {
        var c := ChildOf(reg, key, child, r);
        assert InSubtree(entities, base + [t], c);
        Untouched(entities, entities', base, s, t, c, now);
      }
    }
  }

  lemma RegionsCompose(
    reg: Registry, entities: map<Key, Entity>, entities1: map<Key, Entity>, entities2: map<Key, Entity>, key: Key,
    child: Entity, r0: string, rest: seq<string>, now: int)
    requires InManaged(reg, key, child, r0)
    requires forall r :: r in rest ==> r != r0
    requires CancelledExactly(entities, entities1, child.Path() + [StepOf(key, child, r0)], now)
    requires CancelledRegions(reg, entities1, entities2, key, child, rest, now)
    ensures CancelledRegions(reg, entities, entities2, key, child, [r0] + rest, now)
  {
    var base, s := child.Path(), StepOf(key, child, r0);
    forall d | d in entities
      ensures if InRegions(reg, entities, key, child, [r0] + rest, d) then CancelledIn(entities[d], entities2[d], now)
              else entities2[d] == entities[d]
    {
      RegionsSplit(reg, entities, key, child, r0, rest, d);
      if InSubtree(entities, base + [s], d) {
        assert CancelledIn(entities[d], entities1[d], now);
        assert !entities1[d].IsActiveChild();
        assert BelowRegion(reg, entities, key, child, r0, d);
        assert !InRegions(reg, entities1, key, child, rest, d);
      } else {
        assert entities1[d] == entities[d];
        assert !BelowRegion(reg, entities, key, child, r0, d);
        assert forall r :: BelowRegion(reg, entities, key, child, r, d) <==>
          BelowRegion(reg, entities1, key, child, r, d);
        assert InRegions(reg, entities, key, child, rest, d) <==> InRegions(reg, entities1, key, child, rest, d);
      }
    }
  }
}
