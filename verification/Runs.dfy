/** Every step keeps the invariant, touches one tree, and is refused only for a reason of its own. */
module Runs {
  import opened Names
  import opened Models
  import opened Engine
  import opened EngineSteps
  import opened Store
  import opened Lifecycle
  import opened Ledger
  import opened LedgerProofs
  import opened Tree
  import opened StartProofs
  import opened CascadeProofs
  import opened Requests
  import opened Delivery
  import opened Writes

  // ---------------------------------------------------------------- creation

  /** Every new entity but the root is an unwritten active instance with an empty context. */
  ghost predicate NewInstances(entities: map<Key, Entity>, entities': map<Key, Entity>, root: Key) {
    forall k {:trigger entities'[k]} ::
      k in entities' && k !in entities && k != root ==>
        entities'[k].IsActiveChild() && entities'[k].version == 1 && entities'[k].context == map[]
  }

  /** A committed creation: the new root and the tree started under it. */
  ghost predicate Created(reg: Registry, db: Db, key: Key, context: Context, now: int, tx: Tx) {
    && LedgerOk(reg, tx.entities, tx.history, None) && TreeOk(reg, tx.entities, None)
    && Extends(db.entities, tx.entities)
    && key !in db.entities && key in tx.entities && key.machine in reg
    && tx.entities[key] == NewEntity(reg[key.machine].InitialStates(), context, now, None)
    && NewInstances(db.entities, tx.entities, key)
  }

  lemma CreateSettles(reg: Registry, db: Db, trig: Trigger, key: Key, context: Context)
    requires WellFormedRegistry(reg) && Consistent(reg, db) && key.machine in reg
    ensures match CreateRoot(reg, Begin(db), trig, key, context)
            case Ok(tx) => Created(reg, db, key, context, trig.now, tx)
            case Err(error) => if key in db.entities then error == Conflict else StartRefusal(error)
  {
    if key !in db.entities {
      var states := reg[key.machine].InitialStates();
      var e := NewEntity(states, context, trig.now, None);
      var tx1 := Begin(db).(entities := db.entities[key := e]);
      InsertLedger(reg, db.entities, db.history, key, context, trig.now, None, None);
      var regions := SortedKeys(states.Keys);
      StartChildrenTree(reg, tx1, trig, key, e, regions, None);
      StartChildrenLedger(reg, tx1, trig, key, [], states, regions, None);
      var r := StartChildren(reg, tx1, trig, key, [], states, regions);
      if r.Ok? {
        RootCreated(reg, db, key, context, trig.now, r.value);
      }
    }
  }

  lemma RootCreated(reg: Registry, db: Db, key: Key, context: Context, now: int, tx: Tx)
    requires TreeOk(reg, db.entities, None) && key !in db.entities && key.machine in reg
    requires var e := NewEntity(reg[key.machine].InitialStates(), context, now, None);
             && FreshTree(reg, db.entities[key := e], tx.entities, []) && LedgerOk(reg, tx.entities, tx.history, None)
             && forall r :: r in e.states ==> Down(reg, tx.entities, key, r, true)
    ensures Created(reg, db, key, context, now, tx)
  {
    var e := NewEntity(reg[key.machine].InitialStates(), context, now, None);
    var entities1 := db.entities[key := e];
    RootTree(reg, db.entities, entities1, tx.entities, key, e);
    forall k | k in tx.entities && k !in db.entities && k != key
      ensures tx.entities[k].IsActiveChild() && tx.entities[k].version == 1 && tx.entities[k].context == map[]
    {
      assert FreshNode(reg, tx.entities, [], k);
    }
  }

  lemma RootTree(
    reg: Registry, entities: map<Key, Entity>, entities1: map<Key, Entity>, entities': map<Key, Entity>, key: Key,
    e: Entity)
    requires TreeOk(reg, entities, None) && key !in entities && entities1 == entities[key := e] && e.instance.None?
    requires FreshTree(reg, entities1, entities', [])
    requires forall r :: r in e.states ==> Down(reg, entities', key, r, true)
    ensures TreeOk(reg, entities', None) && Extends(entities, entities') && key in entities' && entities'[key] == e
  {
    assert entities1[key] == e;
    forall k | k in entities ensures k in entities' && entities'[k] == entities[k] {
      assert k in entities1;
    }
    forall k, r | k in entities' && r in entities'[k].states ensures DownAt(reg, entities', None, k, r) {
      if k in entities {
        assert DownAt(reg, entities, None, k, r);
        DownStays(reg, entities, entities', k, r, true);
      } else if k != key {
        assert FreshNode(reg, entities', [], k);
        assert Down(reg, entities', k, r, true);
      }
    }
    forall c | c in entities' ensures Up(reg, entities', c) {
      if c in entities {
        UpStays(reg, entities, entities', c);
      } else if c != key {
        assert FreshNode(reg, entities', [], c);
      }
    }
  }

  // ---------------------------------------------------------------- steps and runs

  /** What a step can be refused for. A completion cascade adds nothing to it: past the checks of the
      request itself, only the start of a child can refuse. */
  ghost predicate Refusal(reg: Registry, db: Db, request: Request, error: Error) {
    if request.key.machine !in reg then error == MachineNotFound
    else OwnReason(reg, db, request, error) || StartRefusal(error)
  }

  ghost predicate StepSettled(reg: Registry, db: Db, request: Request, answer: Result<Option<Tx>>) {
    match answer
    case Ok(Some(tx)) =>
      if request.Create? then Created(reg, db, request.key, request.context, request.clock, tx)
      else request.key in db.entities && Settled(reg, Begin(db), tx, RootOf(request.key, db.entities[request.key]))
    case Ok(None) => true
    case Err(error) => Refusal(reg, db, request, error)
  }

  lemma WriteSettles(reg: Registry, db: Db, request: Request, r: Result<Tx>)
    requires SomeWriteGives(reg, db, request, r)
    ensures request.key in db.entities
    ensures if r.Ok? then Settled(reg, Begin(db), r.value, RootOf(request.key, db.entities[request.key]))
            else StartRefusal(r.error)
  {
    var h, spec :| WriteGives(reg, db, request, h, spec, r);
    WriteEntityTree(reg, Begin(db), TriggerOf(request), h, db.entities[h], spec);
  }

  lemma StepSettles(reg: Registry, db: Db, request: Request)
    requires WellFormedRegistry(reg) && Consistent(reg, db)
    ensures StepSettled(reg, db, request, ServeTx(reg, db, request))
  {
    if request.key.machine in reg {
      if request.Create? {
        CreateSettles(reg, db, TriggerOf(request), request.key, request.context);
      } else {
        RequestWrites(reg, db, request);
        match ServeTx(reg, db, request)
        case Ok(Some(tx)) =>
          WriteSettles(reg, db, request, Ok(tx));
        case Ok(None) =>
        case Err(error) =>
          if !OwnReason(reg, db, request, error) {
            WriteSettles(reg, db, request, Err(error));
          }
      }
    }
  }

  lemma ServeKeepsConsistent(reg: Registry, db: Db, request: Request)
    requires WellFormedRegistry(reg) && Consistent(reg, db)
    ensures Consistent(reg, Serve(reg, db, request))
  {
    StepSettles(reg, db, request);
  }

  /** The invariant holds in every store that any sequence of requests reaches. */
  lemma {:induction false} ReachableConsistent(reg: Registry, run: seq<Served>, n: nat)
    requires WellFormedRegistry(reg) && IsRun(reg, run) && n <= |run|
    ensures Consistent(reg, StoreAt(run, n))
  {
    if n == 0 {
      assert EMPTY.history == [];
    } else {
      ReachableConsistent(reg, run, n - 1);
      assert ServedAt(reg, run, n - 1);
      ServeKeepsConsistent(reg, StoreAt(run, n - 1), run[n - 1].request);
    }
  }

  lemma ServedSettles(reg: Registry, run: seq<Served>, n: nat)
    requires WellFormedRegistry(reg) && IsRun(reg, run) && n < |run|
    ensures Consistent(reg, StoreAt(run, n)) && StepSettled(reg, StoreAt(run, n), run[n].request, run[n].answer)
    ensures run[n].db == StoreAfter(StoreAt(run, n), run[n].answer)
  {
    ReachableConsistent(reg, run, n);
    assert ServedAt(reg, run, n);
    StepSettles(reg, StoreAt(run, n), run[n].request);
  }

  /** A root as it begins: at version 1, every region in its initial state since then. */
  ghost predicate BegunRoot(m: Machine, context: Context, clock: int, e: Entity) {
    && Begins(m, e.states) && e.context == context && e.version == 1 && e.instance.None?
    && e.createdAt == e.updatedAt == clock
    && forall r :: r in e.states ==> EntryOf(e, r) == RegionEntry(e.states[r], 1, clock, Basis.Created, None)
  }

  /** A creation adds the root in its initial states with the given context, and instances with empty
      contexts; it changes no other entity, and nothing at all when told to ignore an existing root. */
  lemma CreationAdds(reg: Registry, run: seq<Served>, n: nat)
    requires WellFormedRegistry(reg) && IsRun(reg, run) && n < |run| && run[n].request.Create?
    ensures var db, db', request := StoreAt(run, n), StoreAt(run, n + 1), run[n].request;
            run[n].answer.Ok? ==>
              if request.orIgnore && request.key in db.entities then
                db' == db
              else
                && Extends(db.entities, db'.entities)
                && request.key !in db.entities && request.key in db'.entities && request.key.machine in reg
                && BegunRoot(reg[request.key.machine], request.context, request.clock, db'.entities[request.key])
                && NewInstances(db.entities, db'.entities, request.key)
  {
    ServedSettles(reg, run, n);
    assert ServedAt(reg, run, n);
    var request := run[n].request;
    if request.key.machine in reg {
      NewRootBegins(reg[request.key.machine], request.context, request.clock);
    }
  }

  lemma NewRootBegins(m: Machine, context: Context, clock: int)
    requires DistinctRegions(m.regions)
    ensures BegunRoot(m, context, clock, NewEntity(m.InitialStates(), context, clock, None))
  {
    InitialStatesBegin(m);
  }

  /** An event or a timer changes entities of one tree only, each at most once. Creation changes none. */
  lemma TreeIsolation(reg: Registry, run: seq<Served>, n: nat)
    requires WellFormedRegistry(reg) && IsRun(reg, run) && n < |run|
    ensures var db, db', request := StoreAt(run, n), StoreAt(run, n + 1), run[n].request;
            db' != db ==>
              if request.Create? then
                Extends(db.entities, db'.entities)
              else
                && request.key in db.entities
                && TouchedOnce(db.entities, db'.entities, RootOf(request.key, db.entities[request.key]))
  {
    ServedSettles(reg, run, n);
  }

  /** The parent of a new instance is `top` or new itself. */
  ghost predicate StartedUnder(entities: map<Key, Entity>, entities': map<Key, Entity>, top: Key, k: Key) {
    k in entities' && k !in entities ==>
      && entities'[k].instance.Some?
      && var parent := ParentKey(entities'[k].instance.value.link);
         parent in entities' && (parent == top || parent !in entities)
  }

  lemma ChildExists(reg: Registry, entities: map<Key, Entity>, parent: Key, link: Step, k: Key)
    requires TreeOk(reg, entities, None) && parent in entities && entities[parent].Live()
    requires link.region in entities[parent].states && StepOf(parent, entities[parent], link.region) == link
    requires NamesChild(reg, link, k)
    ensures k in entities
  {
    assert DownAt(reg, entities, None, parent, link.region);
  }

  /** Any other live entity is as it was, and had its children before. */
  lemma NewUnderTop(reg: Registry, db: Db, db': Db, root: Key, top: Key, k: Key)
    requires Consistent(reg, db) && Consistent(reg, db')
    requires TouchedOnce(db.entities, db'.entities, root) && TopOnly(db.entities, db'.entities, top)
    ensures StartedUnder(db.entities, db'.entities, top, k)
  {
    if k in db'.entities && k !in db.entities {
      assert TouchedAt(db.entities, db'.entities, root, k);
      assert Up(reg, db'.entities, k) && EntityOkAt(reg, db'.entities, db'.history, k);
      var link := db'.entities[k].instance.value.link;
      var parent := ParentKey(link);
      if parent in db.entities && parent != top {
        assert TopAt(db.entities, db'.entities, top, parent);
        ChildExists(reg, db.entities, parent, link, k);
      }
    }
  }

  /** Of the existing entities that a commit changes, one is topmost: it is above all others, and the
      only one that does not end. The parent of every instance the commit starts is that one, or was
      started in the commit too. */
  lemma OnlyTopmostStarts(reg: Registry, run: seq<Served>, n: nat) returns (top: Key)
    requires WellFormedRegistry(reg) && IsRun(reg, run) && n < |run| && !run[n].request.Create?
    ensures var entities, entities' := StoreAt(run, n).entities, StoreAt(run, n + 1).entities;
            run[n].Commits() ==>
              TopOnly(entities, entities', top) && forall k :: StartedUnder(entities, entities', top, k)
  {
    ServedSettles(reg, run, n);
    var db, db' := StoreAt(run, n), StoreAt(run, n + 1);
    var request := run[n].request;
    top := request.key;
    if run[n].Commits() {
      top :| TopOnly(db.entities, db'.entities, top);
      ReachableConsistent(reg, run, n + 1);
      forall k ensures StartedUnder(db.entities, db'.entities, top, k) {
        NewUnderTop(reg, db, db', RootOf(request.key, db.entities[request.key]), top, k);
      }
    }
  }

  /** A refusal has one of the reasons of its request: no cascade is ever refused for a version or an
      identity, for an ended instance or for an inconsistency. */
  lemma OnlyStartsRefuse(reg: Registry, run: seq<Served>, n: nat)
    requires WellFormedRegistry(reg) && IsRun(reg, run) && n < |run|
    ensures run[n].answer.Err? ==> Refusal(reg, StoreAt(run, n), run[n].request, run[n].answer.error)
  {
    ServedSettles(reg, run, n);
  }

  /** The reasons that leave no doubt. An untargeted event may also clash at a child it is forwarded to. */
  predicate Decisive(request: Request, error: Error) {
    || error in {EntityNotFound, InstanceNotActive, TargetNotActive, Conflict}
    || (error == EventIdentityConflict && !request.Event?)
  }

  lemma ReasonRefuses(reg: Registry, db: Db, request: Request, error: Error)
    requires request.key.machine in reg && Decisive(request, error) && OwnReason(reg, db, request, error)
    ensures ServeTx(reg, db, request) == Err(error)
  {
    if request.Targeted? {
      TargetedCases(reg, Begin(db), TriggerOf(request), request.key, request.target, request.params);
      ResolvedRegistered(reg, request.key, request.target);
    }
  }

  /** An absent entity, an ended one, a target path that is not current, an existing root and, for a
      targeted event, a clash at the target are each reported exactly when they are the case before the
      request: no cascade reports them. */
  lemma RefusalsExact(reg: Registry, run: seq<Served>, n: nat, error: Error)
    requires WellFormedRegistry(reg) && IsRun(reg, run) && n < |run| && run[n].request.key.machine in reg
    requires Decisive(run[n].request, error)
    ensures run[n].answer == Err(error) <==> OwnReason(reg, StoreAt(run, n), run[n].request, error)
  {
    ServedSettles(reg, run, n);
    assert ServedAt(reg, run, n);
    if OwnReason(reg, StoreAt(run, n), run[n].request, error) {
      ReasonRefuses(reg, StoreAt(run, n), run[n].request, error);
    }
  }
}
