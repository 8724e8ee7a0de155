/** On an accepted tree every request can be told beforehand: it is refused for a reason of its own, or
    exactly when the children it would start do not fit. */
module Refusals {
  import opened Names
  import opened Models
  import opened Engine
  import opened Store
  import opened Lifecycle
  import opened Ledger
  import opened WriteProofs
  import opened Tree
  import opened StartProofs
  import opened CascadeProofs
  import opened Requests
  import opened Delivery
  import opened Writes
  import opened Runs
  import opened Nesting
  import opened Acceptance
  import opened StartPlans

  // ---------------------------------------------------------------- creations

  function RootPlan(reg: Registry, key: Key): seq<Key>
    requires key.machine in reg
  {
    var states := reg[key.machine].InitialStates();
    [key] + PlanAll(reg, key, 0, states, SortedKeys(states.Keys))
  }

  /** The creation of an accepted root succeeds exactly when its plan fits, and creates exactly that. */
  lemma CreationExact(reg: Registry, run: seq<Served>, n: nat)
    requires IsRun(reg, run) && n < |run| && run[n].request.Create?
    requires AcceptedRoot(reg, run[n].request.key.machine)
    requires !(run[n].request.orIgnore && run[n].request.key in StoreAt(run, n).entities)
    ensures var taken, plan := StoreAt(run, n).entities.Keys, RootPlan(reg, run[n].request.key);
            && (run[n].answer.Ok? <==> Fits(taken, plan))
            && (run[n].answer.Ok? ==> StoreAt(run, n + 1).entities.Keys == taken + Planned(plan))
  {
    assert ServedAt(reg, run, n);
    var db, request := StoreAt(run, n), run[n].request;
    var key, trig := request.key, TriggerOf(request);
    var states := reg[key.machine].InitialStates();
    var regions := SortedKeys(states.Keys);
    FitsInTurn(db.entities.Keys, [key], PlanAll(reg, key, 0, states, regions));
    if key !in db.entities {
      var tx1 := Begin(db).(entities := db.entities[key := NewEntity(states, request.context, trig.now, None)]);
      assert tx1.entities.Keys == db.entities.Keys + Planned([key]);
      StartsFollow(reg, tx1, trig, key, [], states, regions);
      AcceptedStartsBelow(reg, key.machine, tx1, trig, key, [], states, regions);
    }
  }

  // ---------------------------------------------------------------- requests

  /** The answer that the plan of one write calls for, and the keys it leaves. */
  ghost predicate AsPlanned(reg: Registry, db: Db, r: Result<Tx>, h: Key, spec: WriteSpec) {
    && h in db.entities && h.machine in reg
    && var plan := SpecPlan(reg, db.entities, h, spec);
       if Fits(db.entities.Keys, plan) then r.Ok? && r.value.entities.Keys == db.entities.Keys + Planned(plan)
       else r == Err(InstanceConflict)
  }

  lemma WrittenAsPlanned(reg: Registry, db: Db, request: Request, h: Key, spec: WriteSpec, r: Result<Tx>)
    requires WriteGives(reg, db, request, h, spec, r) && AcceptedRoot(reg, RootOf(h, db.entities[h]).machine)
    ensures AsPlanned(reg, db, r, h, spec)
  {
    WriteExact(reg, Begin(db), TriggerOf(request), h, db.entities[h], spec);
  }

  ghost predicate SomeAsPlanned(reg: Registry, db: Db, request: Request, r: Result<Tx>) {
    exists h, spec {:trigger AsPlanned(reg, db, r, h, spec)} ::
      ReadyWrite(reg, db, request, h, spec) && AsPlanned(reg, db, r, h, spec)
  }

  lemma SomeWritePlanned(reg: Registry, db: Db, request: Request, r: Result<Tx>)
    requires SomeWriteGives(reg, db, request, r) && AcceptedRoot(reg, TreeMachine(db, request)) && !request.Create?
    ensures SomeAsPlanned(reg, db, request, r)
  {
    var h, spec :| WriteGives(reg, db, request, h, spec, r);
    WrittenAsPlanned(reg, db, request, h, spec, r);
  }

  /** On an accepted tree, a request that passes its own checks and is not idle is one ready write of
      that tree, which goes exactly as planned. */
  lemma RequestExact(reg: Registry, run: seq<Served>, n: nat)
    requires WellFormedRegistry(reg) && IsRun(reg, run) && n < |run| && run[n].request.key.machine in reg
    requires !run[n].request.Create? && AcceptedRoot(reg, TreeMachine(StoreAt(run, n), run[n].request))
    ensures var db, request := StoreAt(run, n), run[n].request;
            match run[n].answer
            case Ok(Some(tx)) => SomeAsPlanned(reg, db, request, Ok(tx))
            case Ok(None) => true
            case Err(error) => OwnReason(reg, db, request, error) || SomeAsPlanned(reg, db, request, Err(error))
  {
    ReachableConsistent(reg, run, n);
    assert ServedAt(reg, run, n);
    var db, request := StoreAt(run, n), run[n].request;
    RequestWrites(reg, db, request);
    match run[n].answer
    case Ok(Some(tx)) => SomeWritePlanned(reg, db, request, Ok(tx));
    case Ok(None) =>
    case Err(error) =>
      if !OwnReason(reg, db, request, error) {
        SomeWritePlanned(reg, db, request, Err(error));
      }
  }

  /** An event that the addressed entity itself handles succeeds exactly when the plan of its write fits. */
  lemma EventExact(reg: Registry, db: Db, request: Request, t: Transition)
    requires Consistent(reg, db) && request.Event? && request.key.machine in reg
    requires AcceptedRoot(reg, TreeMachine(db, request))
    requires Receives(Begin(db), TriggerOf(request), request.key, request.params)
    requires OwnTransition(reg, db.entities[request.key], request.key, TriggerOf(request).eventType, request.params)
          == Some(t)
    requires t.Region() in db.entities[request.key].states
    ensures var e := db.entities[request.key];
            var spec := EventSpec(reg[request.key.machine], e, t, request.params, TriggerOf(request));
            if Fits(db.entities.Keys, SpecPlan(reg, db.entities, request.key, spec)) then
              ServeTx(reg, db, request).Ok?
            else
              ServeTx(reg, db, request) == Err(InstanceConflict)
  {
    var key, trig := request.key, TriggerOf(request);
    TakenOrPassedOn(reg, Begin(db), trig, key, request.params, true);
    var outcome := TransitionInTx(reg, Begin(db), trig, key, request.params, true);
    var r: Result<Tx> := if outcome.Err? then Err(outcome.error) else Ok(outcome.value.tx);
    EvaluatedInRegion(reg[key.machine].transitions, db.entities[key], trig.eventType, request.params);
    EventSpecReady(reg, Begin(db), trig, key, t, request.params);
    WrittenAsPlanned(reg, db, request, key, HandlerSpec(reg, Begin(db), trig, request.params, key), r);
  }

  /** A ready timer fires exactly when the plan of its write fits. */
  lemma TimerExact(reg: Registry, db: Db, request: Request)
    requires Consistent(reg, db) && request.Timer? && request.key.machine in reg && request.key in db.entities
    requires AcceptedRoot(reg, TreeMachine(db, request))
    requires TimeoutReady(db.entities[request.key], request.transition.Region(), request.transition.from,
                          request.timeoutMs, request.now)
    ensures var spec := TimeoutSpec(reg[request.key.machine], db.entities[request.key], request.transition,
                                    request.timeoutMs, request.now);
            if Fits(db.entities.Keys, SpecPlan(reg, db.entities, request.key, spec)) then
              ServeTx(reg, db, request).Ok? && ServeTx(reg, db, request).value.Some?
            else
              ServeTx(reg, db, request) == Err(InstanceConflict)
  {
    var Timer(key, t, timeoutMs, now, clock) := request;
    TimeoutSpecReady(reg, Begin(db), clock, key, t, timeoutMs, now);
    WriteExact(reg, Begin(db), TriggerOf(request), key, db.entities[key],
               TimeoutSpec(reg[key.machine], db.entities[key], t, timeoutMs, now));
  }

  // ---------------------------------------------------------------- entering a managed state again

  /** The write does not end its instance, and enters a managed state whose child's key is taken. */
  ghost predicate EntersTaken(reg: Registry, tx: Tx, key: Key, e: Entity, spec: WriteSpec, r: string) {
    && CompletionOf(reg, e.instance, spec.newStates) == Ok(None)
    && r in RegionsEntered(spec.region, spec.joins) && r in spec.newStates && key.machine in reg
    && reg[key.machine].ManagedSub(r, spec.newStates[r]).Some?
    && ChildKey(reg[key.machine].ManagedSub(r, spec.newStates[r]).value, key.id, spec.newStates[r]) in tx.entities
  }

  /** The region's entry is a new one. */
  lemma EntersAnew(reg: Registry, tx: Tx, now: int, key: Key, e: Entity, spec: WriteSpec, w: OwnWrite, r: string)
    requires WriteReady(reg, tx, now, key, e, spec) && OwnMoved(reg, tx, now, key, e, spec, w)
    requires OwnEffect(reg, tx, now, key, e, spec, w) && r in RegionsEntered(spec.region, spec.joins)
    ensures r in e.states && EntryOf(e, r).entry <= e.version
    ensures r in w.tx.entities[key].states && EntryOf(w.tx.entities[key], r).entry == e.version + 1
  {
    assert EntityOkAt(reg, tx.entities, tx.history, key);
    assert EntryCurrent(e, r);
    AdvancedRegions(e, spec, w.row.row, now);
    WriteTells(e, spec, w.row.row, now, r);
    assert NextEntry(e, spec.newStates, spec.region, r, w.entries.regions[r]);
  }

  /** An active instance names its parent's current entry. */
  lemma NamedEntry(reg: Registry, entities: map<Key, Entity>, hole: Option<Place>, c: Key)
    requires TreeOk(reg, entities, hole)
    ensures c in entities && entities[c].IsActiveChild() ==>
              var link := entities[c].instance.value.link;
              && ParentKey(link) in entities && link.region in entities[ParentKey(link)].states
              && link.entry == EntryOf(entities[ParentKey(link)], link.region).entry
  {
    if c in entities {
      assert Up(reg, entities, c);
    }
  }

  /** A write changes no instance's link, and no ended instance. */
  lemma LinkKept(entities: map<Key, Entity>, entities': map<Key, Entity>, root: Key, c: Key)
    requires TouchedOnce(entities, entities', root)
    ensures c in entities && c in entities' && entities'[c].IsActiveChild() ==>
              entities[c].IsActiveChild() && entities[c].instance.value.link == entities'[c].instance.value.link
  {
    if c in entities && c in entities' && entities'[c].IsActiveChild() {
      assert TouchedAt(entities, entities', root, c);
      var p := entities'[c].Path();
      assert entities[c].Path() == p;
      assert p[|p| - 1] == entities'[c].instance.value.link;
      assert entities[c].IsActiveChild() ==> p[|p| - 1] == entities[c].instance.value.link;
    }
  }

  /** The instance that has the key names an earlier entry, so the new entry's child could not be it. */
  lemma ChildIsNew(
    reg: Registry, entities: map<Key, Entity>, entities': map<Key, Entity>, hole: Option<Place>, key: Key, e: Entity,
    root: Key, r: string)
    requires TreeOk(reg, entities, hole)
    requires key in entities && entities[key] == e && key in entities' && entities'[key].Live()
    requires TouchedOnce(entities, entities', root)
    requires r in e.states && InManaged(reg, key, entities'[key], r)
    requires EntryOf(e, r).entry != EntryOf(entities'[key], r).entry
    requires Down(reg, entities', key, r, true)
    ensures ChildOf(reg, key, entities'[key], r) !in entities
  {
    NamedEntry(reg, entities, hole, ChildOf(reg, key, entities'[key], r));
    LinkKept(entities, entities', root, ChildOf(reg, key, entities'[key], r));
  }

  /** So the lifecycle of such a write does not succeed. */
  lemma TakenStops(
    reg: Registry, tx: Tx, now: int, key: Key, e: Entity, spec: WriteSpec, r: string, w: OwnWrite, tx1: Tx)
    requires WriteReady(reg, tx, now, key, e, spec) && EntersTaken(reg, tx, key, e, spec, r)
    requires OwnMoved(reg, tx, now, key, e, spec, w) && OwnEffect(reg, tx, now, key, e, spec, w)
    ensures !OwnDone(reg, tx, tx1, key, e, w)
  {
    EntersAnew(reg, tx, now, key, e, spec, w, r);
    if OwnDone(reg, tx, tx1, key, e, w) {
      assert DownAt(reg, tx1.entities, HoleAbove(tx1.entities[key]), key, r);
      ChildIsNew(reg, tx.entities, tx1.entities, Some(Place(key, spec.region)), key, e, RootOf(key, e), r);
    }
  }

  /** Such a write is refused: a managed state is never entered twice. */
  lemma ReentryRefused(reg: Registry, tx: Tx, trig: Trigger, key: Key, e: Entity, spec: WriteSpec, r: string)
    requires WriteReady(reg, tx, trig.now, key, e, spec) && EntersTaken(reg, tx, key, e, spec, r)
    ensures var w := WriteEntity(reg, tx, trig, key, e, spec);
            && w.Err? && StartRefusal(w.error)
            && (AcceptedRoot(reg, RootOf(key, e).machine) ==> w.error == InstanceConflict)
  {
    if AcceptedRoot(reg, RootOf(key, e).machine) {
      WriteRefusal(reg, tx, trig, key, e, spec);
    }
    OwnWriteMoves(reg, tx, trig.now, key, e, spec);
    WriteOwnEffect(reg, tx, trig.now, key, e, spec);
    OwnLifecycle(reg, tx, trig, key, e, spec);
    var w := WriteOwn(reg, tx, trig.now, key, e, spec).value;
    var own := ApplyChildLifecycle(reg, w.tx, trig, key, e.Path(), EffectiveEntries(e), w.entries.regions,
                                   SortedKeys(w.entries.regions.Keys), w.completion.Some?, w.row);
    if own.Ok? {
      TakenStops(reg, tx, trig.now, key, e, spec, r, w, own.value);
    }
  }
}
