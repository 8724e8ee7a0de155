/** Starting a managed child adds a complete, active subtree and nothing else. */
module StartProofs {
  import opened Names
  import opened Models
  import opened Engine
  import opened Store
  import opened Lifecycle
  import opened Ledger
  import opened LedgerProofs
  import opened Tree

  /** The refusals of a start. */
  predicate StartRefusal(error: Error) {
    error in {NestingDepthExceeded, MachineNotFound, BadRequest, InstanceConflict}
  }

  ghost predicate Extends(entities: map<Key, Entity>, entities': map<Key, Entity>) {
    forall k {:trigger k in entities} {:trigger entities'[k]} :: k in entities ==>
      k in entities' && entities'[k] == entities[k]
  }

  /** A new instance at or below `base`, with its own children in place. */
  ghost predicate FreshNode(reg: Registry, entities: map<Key, Entity>, base: seq<Step>, k: Key) {
    && k in entities
    && entities[k].IsActiveChild()
    && entities[k].version == 1
    && entities[k].context == map[]
    && base <= entities[k].Path()
    && (forall r {:trigger Down(reg, entities, k, r, true)} :: r in entities[k].states ==>
      Down(reg, entities, k, r, true))
    && (|base| < |entities[k].Path()| ==> Up(reg, entities, k))
  }

  ghost predicate FreshTree(reg: Registry, entities: map<Key, Entity>, entities': map<Key, Entity>, base: seq<Step>) {
    && Extends(entities, entities')
    && forall k {:trigger FreshNode(reg, entities', base, k)} :: k in entities' && k !in entities ==>
      FreshNode(reg, entities', base, k)
  }

  lemma DownStays(
    reg: Registry, entities: map<Key, Entity>, entities': map<Key, Entity>, k: Key, r: string, active: bool)
    requires Extends(entities, entities') && Down(reg, entities, k, r, active)
    ensures Down(reg, entities', k, r, active)
  {
  }

  lemma UpStays(reg: Registry, entities: map<Key, Entity>, entities': map<Key, Entity>, k: Key)
    requires Extends(entities, entities') && Up(reg, entities, k)
    ensures Up(reg, entities', k)
  {
  }

  lemma FreshStays(reg: Registry, entities: map<Key, Entity>, entities': map<Key, Entity>, base: seq<Step>, k: Key)
    requires Extends(entities, entities') && FreshNode(reg, entities, base, k)
    ensures FreshNode(reg, entities', base, k)
  {
    forall r | r in entities'[k].states ensures Down(reg, entities', k, r, true) {
      assert Down(reg, entities, k, r, true);
      DownStays(reg, entities, entities', k, r, true);
    }
    if |base| < |entities[k].Path()| {
      UpStays(reg, entities, entities', k);
    }
  }

  /** Two starts, the second after the first. */
  lemma FreshCompose(
    reg: Registry, entities: map<Key, Entity>, entities1: map<Key, Entity>, entities2: map<Key, Entity>,
    base: seq<Step>)
    requires FreshTree(reg, entities, entities1, base) && FreshTree(reg, entities1, entities2, base)
    ensures FreshTree(reg, entities, entities2, base)
  {
    forall k | k in entities2 && k !in entities ensures FreshNode(reg, entities2, base, k) {
      if k in entities1 {
        assert FreshNode(reg, entities1, base, k);
        FreshStays(reg, entities1, entities2, base, k);
      }
    }
  }

  /** What a successful start of the child named by `link` leaves. */
  ghost predicate StartedChild(
    reg: Registry, entities: map<Key, Entity>, entities': map<Key, Entity>, link: Step, path: seq<Step>)
  {
    && FreshTree(reg, entities, entities', path + [link])
    && SubOf(reg, link).Some?
    && var child := ChildKey(SubOf(reg, link).value, link.entity, link.state);
       child !in entities && Linked(entities', child, link, path) && entities'[child].IsActiveChild()
  }

  lemma {:induction false} StartChildTree(
    reg: Registry, tx: Tx, trig: Trigger, parentKey: Key, path: seq<Step>, region: string, state: string, entry: int,
    pending: Option<Key>)
    requires LedgerOk(reg, tx.entities, tx.history, pending)
    requires parentKey.machine in reg && reg[parentKey.machine].ManagedSub(region, state).Some?
    ensures var r := StartChild(reg, tx, trig, parentKey, path, region, state, entry);
            match r
            case Ok(tx') => StartedChild(reg, tx.entities, tx'.entities,
                                         Step(parentKey.machine, parentKey.id, region, state, entry), path)
            case Err(error) => StartRefusal(error)
    decreases MAX_MANAGED_DEPTH + 1 - |path|, 1, 0
  {
    var r := StartChild(reg, tx, trig, parentKey, path, region, state, entry);
    var sub := reg[parentKey.machine].ManagedSub(region, state).value;
    if |path| + 1 <= MAX_MANAGED_DEPTH && sub.machineId in reg {
      var childKey := ChildKey(sub, parentKey.id, state);
      if RulesFit(sub, reg[sub.machineId]) && childKey !in tx.entities {
        var link := Step(parentKey.machine, parentKey.id, region, state, entry);
        var machine := reg[sub.machineId];
        var states := machine.InitialStates();
        var regions := SortedKeys(states.Keys);
        var instance := Instance(Active, |path| + 1, path, link, 1, None);
        InsertLedger(reg, tx.entities, tx.history, childKey, map[], trig.now, Some(instance), pending);
        var tx1 := StartedTx(tx, reg, childKey, path, link, trig.now);
        StartChildrenTree(reg, tx1, trig, childKey, tx1.entities[childKey], regions, pending);
        if r.Ok? {
          OnlyTopIsNew(reg, tx.entities, tx1.entities, r.value.entities, childKey, tx1.entities[childKey], regions);
        }
      }
    }
  }

  lemma OnlyTopIsNew(
    reg: Registry, entities: map<Key, Entity>, entities1: map<Key, Entity>, entities': map<Key, Entity>,
    childKey: Key, child: Entity, regions: seq<string>)
    requires child.IsActiveChild() && child.version == 1 && child.context == map[]
    requires childKey !in entities && entities1 == entities[childKey := child]
    requires FreshTree(reg, entities1, entities', child.Path())
    requires forall r :: r in child.states ==> Down(reg, entities', childKey, r, true)
    ensures FreshTree(reg, entities, entities', child.Path())
  {
    assert entities1[childKey] == child;
    forall k | k in entities ensures k in entities' && entities'[k] == entities[k] {
      assert k in entities1;
    }
    forall k | k in entities' && k !in entities ensures FreshNode(reg, entities', child.Path(), k) {
      if k != childKey {
        assert k !in entities1;
      }
    }
  }

  /** A new entity: every region is in its first entry instance. */
  ghost predicate NewlyStarted(e: Entity) {
    && e.Live()
    && e.version == 1
    && forall r :: r in e.states ==> EntryOf(e, r).entry == 1
  }

  lemma {:induction false} StartChildrenTree(
    reg: Registry, tx: Tx, trig: Trigger, key: Key, e: Entity, regions: seq<string>, pending: Option<Key>)
    requires LedgerOk(reg, tx.entities, tx.history, pending)
    requires key.machine in reg && Stored(tx, key, e) && NewlyStarted(e)
    requires forall r :: r in regions ==> r in e.states
    ensures var r := StartChildren(reg, tx, trig, key, e.Path(), e.states, regions);
            match r
            case Ok(tx') =>
              && FreshTree(reg, tx.entities, tx'.entities, e.Path())
              && (forall s :: s in regions ==> Down(reg, tx'.entities, key, s, true))
            case Err(error) => StartRefusal(error)
    decreases MAX_MANAGED_DEPTH + 1 - |e.Path()|, 2, |regions|
  {
    var r := StartChildren(reg, tx, trig, key, e.Path(), e.states, regions);
    if regions != [] {
      var r0, rest := regions[0], regions[1..];
      assert regions == [r0] + rest;
      assert forall s :: s in rest ==> s in regions;
      if reg[key.machine].ManagedSub(r0, e.states[r0]).Some? {
        StartChildTree(reg, tx, trig, key, e.Path(), r0, e.states[r0], 1, pending);
        var started := StartChild(reg, tx, trig, key, e.Path(), r0, e.states[r0], 1);
        if started.Ok? {
          var tx1 := started.value;
          var link := StepOf(key, e, r0);
          StartChildLedger(reg, tx, trig, key, e.Path(), r0, e.states[r0], 1, pending);
          ChildIsBelow(reg, tx.entities, tx1.entities, key, e, r0);
          StartChildrenTree(reg, tx1, trig, key, e, rest, pending);
          if r.Ok? {
            FreshCompose(reg, tx.entities, tx1.entities, r.value.entities, e.Path());
            DownStays(reg, tx1.entities, r.value.entities, key, r0, true);
          }
        }
      } else {
        StartChildrenTree(reg, tx, trig, key, e, rest, pending);
      }
    }
  }

  /** The started child and its descendants, seen from its parent. */
  lemma ChildIsBelow(
    reg: Registry, entities: map<Key, Entity>, entities': map<Key, Entity>, key: Key, e: Entity, r: string)
    requires key in entities && entities[key] == e && e.Live() && r in e.states
    requires StartedChild(reg, entities, entities', StepOf(key, e, r), e.Path())
    ensures FreshTree(reg, entities, entities', e.Path())
    ensures Down(reg, entities', key, r, true)
  {
    var base, link := e.Path(), StepOf(key, e, r);
    assert entities'[key] == e;
    forall k | k in entities' && k !in entities ensures FreshNode(reg, entities', base, k) {
      assert FreshNode(reg, entities', base + [link], k);
      PrefixOfExtension(base, link, entities'[k].Path());
      if |entities'[k].Path()| == |base| + 1 {
        var i := entities'[k].instance.value;
        assert i.Path() == base + [link];
        assert i.Path()[|base|] == i.link && i.Path()[..|base|] == i.above;
      }
    }
  }
}
