/** Every commit but a creation is one write of one live entity, with its cascade; and if the write is
    refused, so is the request. */
module Writes {
  import opened Models
  import opened Engine
  import opened Store
  import opened Lifecycle
  import opened Ledger
  import opened WriteProofs
  import opened Tree
  import opened CascadeProofs
  import opened Requests
  import opened Delivery

  ghost predicate ConsistentTx(reg: Registry, tx: Tx) {
    WellFormedRegistry(reg) && LedgerOk(reg, tx.entities, tx.history, None) && TreeOk(reg, tx.entities, None)
  }

  lemma AnyHole(reg: Registry, entities: map<Key, Entity>, hole: Option<Place>)
    requires TreeOk(reg, entities, None)
    ensures TreeOk(reg, entities, hole)
  {
    forall k, r | k in entities && r in entities[k].states ensures DownAt(reg, entities, hole, k, r) {
      assert DownAt(reg, entities, None, k, r);
    }
  }

  // ---------------------------------------------------------------- an event's write

  /** An event type and timestamp that dedup has not seen gives a new identity. */
  lemma NewEventIsFresh(
    entities: map<Key, Entity>, history: seq<Row>, key: Key, eventType: EventType, timestamp: int, params: Params)
    requires RowsOk(entities, history)
    requires Dedup(history, key, eventType, timestamp, params) == New
    ensures FreshIdentity(history, key, EventId(eventType, timestamp))
  {
    forall i | 0 <= i < |history| && history[i].entity == key
      ensures history[i].identity != EventId(eventType, timestamp)
    {
      assert RowOkAt(entities, history, i);
      assert !SameEvent(history[i], key, eventType, timestamp);
    }
  }

  lemma EventSpecOk(reg: Registry, key: Key, e: Entity, t: Transition, params: Params, trig: Trigger)
    requires key.machine in reg && WellFormed(reg[key.machine]) && e.states.Keys == reg[key.machine].RegionIds()
    requires t.Region() in e.states && e.states[t.Region()] == t.from
    ensures SpecOk(reg, key, e, EventSpec(reg[key.machine], e, t, params, trig))
  {
    JoinCascadeWithin(reg[key.machine].joins, e.states[t.Region() := t.to], JOIN_DEPTH, e.states.Keys);
  }

  lemma EventSpecReady(reg: Registry, tx: Tx, trig: Trigger, key: Key, t: Transition, params: Params)
    requires ConsistentTx(reg, tx) && key in tx.entities && tx.entities[key].Live() && key.machine in reg
    requires t.Region() in tx.entities[key].states && tx.entities[key].states[t.Region()] == t.from
    requires Dedup(tx.history, key, trig.eventType, trig.timestamp, params) == New
    ensures WriteReady(reg, tx, trig.now, key, tx.entities[key],
                       EventSpec(reg[key.machine], tx.entities[key], t, params, trig))
  {
    var e := tx.entities[key];
    assert EntityOkAt(reg, tx.entities, tx.history, key);
    AnyHole(reg, tx.entities, Some(Place(key, t.Region())));
    NewEventIsFresh(tx.entities, tx.history, key, trig.eventType, trig.timestamp, params);
    EventSpecOk(reg, key, e, t, params, trig);
  }

  // ---------------------------------------------------------------- children

  lemma {:induction false} FindDistinct(regions: seq<RegionDef>, i: nat)
    requires i < |regions| && DistinctRegions(regions)
    ensures FindRegion(regions, regions[i].id) == Some(regions[i])
    decreases |regions|
  {
    if i > 0 {
      assert regions[1..][i - 1] == regions[i];
      FindDistinct(regions[1..], i - 1);
    }
  }

  /** The compound is the managed state that its region is in. */
  ghost predicate CompoundOk(m: Machine, states: StateMap, c: Compound) {
    c.region in states && states[c.region] == c.state &&
        (c.sub.managed ==> m.ManagedSub(c.region, c.state) == Some(c.sub))
  }

  lemma {:induction false} CompoundRegionsOk(m: Machine, states: StateMap, from: nat)
    requires WellFormed(m) && m.IsParallel() && from <= |m.regions|
    ensures forall c :: c in CompoundRegions(m.regions[from..], states) ==> CompoundOk(m, states, c)
    decreases |m.regions| - from
  {
    if from < |m.regions| {
      FindDistinct(m.regions, from);
      CompoundRegionsOk(m, states, from + 1);
      assert m.regions[from..][1..] == m.regions[from + 1..];
    }
  }

  lemma CompoundsOk(m: Machine, states: StateMap)
    requires WellFormed(m) && states.Keys == m.RegionIds()
    ensures forall c :: c in CompoundStates(m, states) ==> CompoundOk(m, states, c)
  {
    if m.IsParallel() {
      CompoundRegionsOk(m, states, 0);
      assert m.regions[0..] == m.regions;
    }
  }

  /** The child of a compound state is in its parent's tree, below it. */
  lemma CompoundChild(reg: Registry, tx: Tx, key: Key, c: Compound)
    requires ConsistentTx(reg, tx) && key.machine in reg && key in tx.entities && tx.entities[key].Live()
    requires CompoundOk(reg[key.machine], tx.entities[key].states, c) && c.sub.managed
    ensures var child := ChildKey(c.sub, key.id, c.state);
            && child in tx.entities && child.machine in reg
            && RootOf(child, tx.entities[child]) == RootOf(key, tx.entities[key])
            && tx.entities[key].Path() <= tx.entities[child].Path()
  {
    var child := ChildKey(c.sub, key.id, c.state);
    assert DownAt(reg, tx.entities, None, key, c.region);
    assert child == ChildOf(reg, key, tx.entities[key], c.region);
    assert EntityOkAt(reg, tx.entities, tx.history, child);
    assert Up(reg, tx.entities, child);
    RootOfParent(reg, tx.entities, child);
  }

  // ---------------------------------------------------------------- the handler of an event

  /** The entity's own transition for the event. */
  function OwnTransition(reg: Registry, e: Entity, key: Key, eventType: EventType, params: Params): Option<Transition>
    requires key.machine in reg
  {
    Evaluate(reg[key.machine].transitions, e.states, e.context, eventType, params)
  }

  /** `h` is live, has not seen the event and has an enabled transition for it. */
  ghost predicate CanHandle(reg: Registry, tx: Tx, trig: Trigger, params: Params, h: Key) {
    && h in tx.entities && h.machine in reg && tx.entities[h].Live()
    && Dedup(tx.history, h, trig.eventType, trig.timestamp, params) == New
    && var t := OwnTransition(reg, tx.entities[h], h, trig.eventType, params);
       t.Some? && Enabled(t.value, tx.entities[h].states, tx.entities[h].context, trig.eventType, params)
  }

  /** `h` can handle the event and is `key` itself or, if `key` has no transition for it, a live
      instance below it. */
  ghost predicate HandlerBelow(reg: Registry, tx: Tx, trig: Trigger, key: Key, params: Params, h: Key) {
    && CanHandle(reg, tx, trig, params, h)
    && key in tx.entities && key.machine in reg
    && tx.entities[key].Path() <= tx.entities[h].Path()
    && RootOf(h, tx.entities[h]) == RootOf(key, tx.entities[key])
    && (h != key ==> OwnTransition(reg, tx.entities[key], key, trig.eventType, params).None?)
  }

  function HandlerSpec(reg: Registry, tx: Tx, trig: Trigger, params: Params, h: Key): WriteSpec
    requires CanHandle(reg, tx, trig, params, h)
  {
    EventSpec(reg[h.machine], tx.entities[h], OwnTransition(reg, tx.entities[h], h, trig.eventType, params).value,
              params, trig)
  }

  /** `r` is what the write gave. */
  ghost predicate Wrote(reg: Registry, tx: Tx, trig: Trigger, h: Key, spec: WriteSpec, r: Result<Tx>) {
    && h in tx.entities && h.machine in reg
    && match WriteEntity(reg, tx, trig, h, tx.entities[h], spec)
       case Ok(w) => r == Ok(w.0)
       case Err(error) => r == Err(error)
  }

  ghost predicate Handled(reg: Registry, tx: Tx, trig: Trigger, key: Key, params: Params, h: Key, r: Result<Tx>) {
    HandlerBelow(reg, tx, trig, key, params, h) && Wrote(reg, tx, trig, h, HandlerSpec(reg, tx, trig, params, h), r)
  }

  /** `a`, which is `key` or a live instance below it, recorded the event with other params. */
  ghost predicate ClashAt(tx: Tx, trig: Trigger, key: Key, params: Params, a: Key) {
    && key in tx.entities && a in tx.entities && (a != key ==> tx.entities[a].Live())
    && Dedup(tx.history, a, trig.eventType, trig.timestamp, params) == Clash
    && tx.entities[key].Path() <= tx.entities[a].Path()
  }

  ghost predicate ClashBelow(tx: Tx, trig: Trigger, key: Key, params: Params) {
    exists a {:trigger ClashAt(tx, trig, key, params, a)} :: ClashAt(tx, trig, key, params, a)
  }

  /** Why an event can be refused without a write. */
  ghost predicate EventReason(tx: Tx, trig: Trigger, key: Key, params: Params, error: Error) {
    match error
    case EntityNotFound => key !in tx.entities
    case InstanceNotActive =>
      && key in tx.entities && !tx.entities[key].Live()
      && Dedup(tx.history, key, trig.eventType, trig.timestamp, params) == New
    case EventIdentityConflict => ClashBelow(tx, trig, key, params)
    case _ => false
  }

  /** The event's outcome is that of a write at `h`, unless nothing was written. */
  ghost predicate HandledBy(
    reg: Registry, tx: Tx, trig: Trigger, key: Key, params: Params, h: Key, outcome: Result<Outcome>)
  {
    match outcome
    case Ok(o) => o.Applied? || o.Forwarded? ==> Handled(reg, tx, trig, key, params, h, Ok(o.tx))
    case Err(error) => EventReason(tx, trig, key, params, error) || Handled(reg, tx, trig, key, params, h, Err(error))
  }

  /** The entity is there, live, and new to the event. */
  predicate Receives(tx: Tx, trig: Trigger, key: Key, params: Params) {
    && key in tx.entities && tx.entities[key].Live()
    && Dedup(tx.history, key, trig.eventType, trig.timestamp, params) == New
  }

  lemma RefusedOrSeen(reg: Registry, tx: Tx, trig: Trigger, key: Key, params: Params, forward: bool)
    requires key.machine in reg && !Receives(tx, trig, key, params)
    ensures HandledBy(reg, tx, trig, key, params, key, TransitionInTx(reg, tx, trig, key, params, forward))
  {
    if key in tx.entities && Dedup(tx.history, key, trig.eventType, trig.timestamp, params) == Clash {
      assert ClashAt(tx, trig, key, params, key);
    }
  }

  lemma TakenOrPassedOn(reg: Registry, tx: Tx, trig: Trigger, key: Key, params: Params, forward: bool)
    requires key.machine in reg && Receives(tx, trig, key, params)
    ensures var e := tx.entities[key];
            var outcome := TransitionInTx(reg, tx, trig, key, params, forward);
            if OwnTransition(reg, e, key, trig.eventType, params).Some? then
              && CanHandle(reg, tx, trig, params, key)
              && (outcome.Err? || outcome.value.Applied?)
              && Wrote(reg, tx, trig, key, HandlerSpec(reg, tx, trig, params, key),
                       if outcome.Err? then Err(outcome.error) else Ok(outcome.value.tx))
            else
              outcome == if forward then Forward(reg, tx, trig, key, params, CompoundStates(reg[key.machine], e.states))
                         else Ok(NoTransition)
  {
    EvaluatedInRegion(reg[key.machine].transitions, tx.entities[key], trig.eventType, params);
  }

  lemma {:induction false} TransitionHandled(
    reg: Registry, tx: Tx, trig: Trigger, key: Key, params: Params, forward: bool) returns (h: Key)
    requires ConsistentTx(reg, tx) && key.machine in reg
    ensures HandledBy(reg, tx, trig, key, params, h, TransitionInTx(reg, tx, trig, key, params, forward))
    ensures !forward ==> h == key
    decreases KeysFrom(tx.entities.Keys, key.id), 1, 0
  {
    h := key;
    if Receives(tx, trig, key, params) {
      var e := tx.entities[key];
      TakenOrPassedOn(reg, tx, trig, key, params, forward);
      if OwnTransition(reg, e, key, trig.eventType, params).None? && forward {
        assert EntityOkAt(reg, tx.entities, tx.history, key);
        CompoundsOk(reg[key.machine], e.states);
        h := ForwardHandled(reg, tx, trig, key, params, CompoundStates(reg[key.machine], e.states));
      }
    } else {
      RefusedOrSeen(reg, tx, trig, key, params, forward);
    }
  }

  predicate HasActiveChild(tx: Tx, key: Key, c: Compound) {
    var child := ChildKey(c.sub, key.id, c.state);
    c.sub.managed && child in tx.entities && tx.entities[child].IsActiveChild()
  }

  /** One step of forwarding: the first child's outcome is passed up, unless it did nothing. */
  lemma ForwardStep(reg: Registry, tx: Tx, trig: Trigger, key: Key, params: Params, compounds: seq<Compound>)
    requires key in tx.entities && compounds != []
    ensures var c := compounds[0];
            var child := ChildKey(c.sub, key.id, c.state);
            var rest := Forward(reg, tx, trig, key, params, compounds[1..]);
            Forward(reg, tx, trig, key, params, compounds) ==
              if !HasActiveChild(tx, key, c) then rest
              else if child.machine !in reg then Err(MachineNotFound)
              else
                var outcome := TransitionInTx(reg, tx, trig, child, params, true);
                if EndsSearch(outcome) then PassedUp(child, outcome) else rest
  {
  }

  lemma {:induction false} ForwardHandled(
    reg: Registry, tx: Tx, trig: Trigger, key: Key, params: Params, compounds: seq<Compound>) returns (h: Key)
    requires ConsistentTx(reg, tx) && key.machine in reg && key in tx.entities && tx.entities[key].Live()
    requires OwnTransition(reg, tx.entities[key], key, trig.eventType, params).None?
    requires forall c :: c in compounds ==> CompoundOk(reg[key.machine], tx.entities[key].states, c)
    ensures HandledBy(reg, tx, trig, key, params, h, Forward(reg, tx, trig, key, params, compounds))
    decreases KeysFrom(tx.entities.Keys, key.id), 0, |compounds|
  {
    h := key;
    if compounds != [] {
      var c := compounds[0];
      ForwardStep(reg, tx, trig, key, params, compounds);
      if HasActiveChild(tx, key, c) {
        h := TriedChild(reg, tx, trig, key, params, c);
        if EndsSearch(TransitionInTx(reg, tx, trig, ChildKey(c.sub, key.id, c.state), params, true)) {
          return;
        }
      }
      h := ForwardHandled(reg, tx, trig, key, params, compounds[1..]);
    }
  }

  /** The outcome ends the search among the children. */
  predicate EndsSearch(outcome: Result<Outcome>) {
    outcome.Err? || outcome.value.Applied? || outcome.value.Forwarded?
  }

  /** One active child of a compound state is offered the event. */
  lemma {:induction false} TriedChild(reg: Registry, tx: Tx, trig: Trigger, key: Key, params: Params, c: Compound)
    returns (h: Key)
    requires ConsistentTx(reg, tx) && key.machine in reg && key in tx.entities && tx.entities[key].Live()
    requires OwnTransition(reg, tx.entities[key], key, trig.eventType, params).None?
    requires CompoundOk(reg[key.machine], tx.entities[key].states, c) && c.sub.managed
    ensures var child := ChildKey(c.sub, key.id, c.state);
            && child.machine in reg
            && HandledBy(reg, tx, trig, key, params, h,
                         PassedUp(child, TransitionInTx(reg, tx, trig, child, params, true)))
    decreases KeysFrom(tx.entities.Keys, key.id), 0, 0
  {
    var child := ChildKey(c.sub, key.id, c.state);
    ChildIsDeeper(tx.entities.Keys, key, c.state);
    CompoundChild(reg, tx, key, c);
    assert DownAt(reg, tx.entities, None, key, c.region);
    h := TransitionHandled(reg, tx, trig, child, params, true);
    HandledBelow(reg, tx, trig, key, params, child, h, TransitionInTx(reg, tx, trig, child, params, true));
  }

  /** The parent's outcome when a child was tried first and handled the event or was refused. */
  function PassedUp(child: Key, outcome: Result<Outcome>): Result<Outcome> {
    if outcome.Ok? && (outcome.value.Applied? || outcome.value.Forwarded?) then
      Ok(Forwarded(outcome.value.tx, child))
    else
      outcome
  }

  lemma HandledBelow(
    reg: Registry, tx: Tx, trig: Trigger, key: Key, params: Params, child: Key, h: Key, outcome: Result<Outcome>)
    requires key in tx.entities && key.machine in reg && child in tx.entities && tx.entities[child].Live()
    requires tx.entities[key].Path() <= tx.entities[child].Path()
    requires RootOf(child, tx.entities[child]) == RootOf(key, tx.entities[key])
    requires OwnTransition(reg, tx.entities[key], key, trig.eventType, params).None?
    requires HandledBy(reg, tx, trig, child, params, h, outcome)
    ensures HandledBy(reg, tx, trig, key, params, h, PassedUp(child, outcome))
  {
    if HandlerBelow(reg, tx, trig, child, params, h) {
      PrefixTransitive(tx.entities[key].Path(), tx.entities[child].Path(), tx.entities[h].Path());
    }
    if ClashBelow(tx, trig, child, params) {
      var a :| ClashAt(tx, trig, child, params, a);
      PrefixTransitive(tx.entities[key].Path(), tx.entities[child].Path(), tx.entities[a].Path());
      assert ClashAt(tx, trig, key, params, a);
    }
  }

  lemma SameRoot(db: Db, start: Key, path: seq<Step>, d: Key)
    requires LiveAt(db, start, path, d)
    ensures RootOf(d, db.entities[d]) == RootOf(start, db.entities[start])
  {
    if path != [] && db.entities[start].Path() == [] {
      assert db.entities[d].Path()[0] == path[0];
    }
  }

  // ---------------------------------------------------------------- a timer's write

  lemma TimeoutSpecOk(reg: Registry, key: Key, e: Entity, t: Transition, timeoutMs: int, now: int)
    requires key.machine in reg && WellFormed(reg[key.machine]) && e.states.Keys == reg[key.machine].RegionIds()
    requires TimeoutReady(e, t.Region(), t.from, timeoutMs, now)
    ensures SpecOk(reg, key, e, TimeoutSpec(reg[key.machine], e, t, timeoutMs, now))
  {
    JoinCascadeWithin(reg[key.machine].joins, e.states[t.Region() := t.to], JOIN_DEPTH, e.states.Keys);
  }

  lemma TimeoutSpecReady(reg: Registry, tx: Tx, clock: int, key: Key, t: Transition, timeoutMs: int, now: int)
    requires ConsistentTx(reg, tx) && key in tx.entities && key.machine in reg
    requires TimeoutReady(tx.entities[key], t.Region(), t.from, timeoutMs, now)
    ensures WriteReady(reg, tx, clock, key, tx.entities[key],
                       TimeoutSpec(reg[key.machine], tx.entities[key], t, timeoutMs, now))
  {
    var e := tx.entities[key];
    assert EntityOkAt(reg, tx.entities, tx.history, key);
    AnyHole(reg, tx.entities, Some(Place(key, t.Region())));
    AdvanceIsFresh(reg, tx, key, t.Region(), None);
    TimeoutSpecOk(reg, key, e, t, timeoutMs, now);
  }

  // ---------------------------------------------------------------- requests

  /** Why a targeted event can be refused without a write. */
  ghost predicate TargetReason(
    reg: Registry, tx: Tx, trig: Trigger, start: Key, target: seq<TargetStep>, params: Params, error: Error)
    requires start.machine in reg
  {
    match ResolveHops(reg, start, target)
    case Err(unresolved) => error == unresolved
    case Ok(hops) =>
      var seen := Dedup(tx.history, HopsEnd(start, hops), trig.eventType, trig.timestamp, params);
      match error
      case EventIdentityConflict => seen == Clash
      case EntityNotFound => seen == New && start !in tx.entities
      case TargetNotActive =>
        seen == New && start in tx.entities && !(tx.entities[start].Live() && HopsCurrent(tx.entities, hops))
      case _ => false
  }

  /** A refusal of the request itself, before any write. */
  ghost predicate OwnReason(reg: Registry, db: Db, request: Request, error: Error)
    requires request.key.machine in reg
  {
    match request
    case Create(key, _, orIgnore, _) => error == Conflict && key in db.entities && !orIgnore
    case Event(key, _, params, _, _) => EventReason(Begin(db), TriggerOf(request), key, params, error)
    case Targeted(key, target, _, params, _, _) =>
      TargetReason(reg, Begin(db), TriggerOf(request), key, target, params, error)
    case Timer(_, _, _, _, _) => false
  }

  /** A write that the request may make: of `h`, in the tree of the request's entity. */
  ghost predicate ReadyWrite(reg: Registry, db: Db, request: Request, h: Key, spec: WriteSpec) {
    && request.key in db.entities && h in db.entities && h.machine in reg
    && WriteReady(reg, Begin(db), TriggerOf(request).now, h, db.entities[h], spec)
    && RootOf(h, db.entities[h]) == RootOf(request.key, db.entities[request.key])
  }

  ghost predicate WriteGives(reg: Registry, db: Db, request: Request, h: Key, spec: WriteSpec, r: Result<Tx>) {
    ReadyWrite(reg, db, request, h, spec) && Wrote(reg, Begin(db), TriggerOf(request), h, spec, r)
  }

  ghost predicate SomeWriteGives(reg: Registry, db: Db, request: Request, r: Result<Tx>) {
    exists h, spec {:trigger WriteGives(reg, db, request, h, spec, r)} :: WriteGives(reg, db, request, h, spec, r)
  }

  /** The answer is that of a write, unless nothing was written. */
  ghost predicate Written(reg: Registry, db: Db, request: Request, answer: Result<Option<Tx>>)
    requires request.key.machine in reg
  {
    match answer
    case Ok(Some(tx)) => SomeWriteGives(reg, db, request, Ok(tx))
    case Ok(None) => true
    case Err(error) => OwnReason(reg, db, request, error) || SomeWriteGives(reg, db, request, Err(error))
  }

  lemma RequestWrites(reg: Registry, db: Db, request: Request)
    requires WellFormedRegistry(reg) && Consistent(reg, db) && request.key.machine in reg && !request.Create?
    ensures Written(reg, db, request, ServeTx(reg, db, request))
  {
    match request
    case Event(key, _, params, _, _) =>
      var h := TransitionHandled(reg, Begin(db), TriggerOf(request), key, params, true);
      OutcomeWritten(reg, db, request, params, h,
                     TransitionInTx(reg, Begin(db), TriggerOf(request), key, params, true));
    case Targeted(key, target, _, params, _, _) =>
      TargetedCases(reg, Begin(db), TriggerOf(request), key, target, params);
      var outcome := ExecuteTargeted(reg, Begin(db), TriggerOf(request), key, target, params);
      if TargetReady(reg, Begin(db), TriggerOf(request), key, target, params) {
        TargetedWritten(reg, db, request, target, params, outcome);
      }
    case Timer(key, t, timeoutMs, now, clock) =>
      if key in db.entities && TimeoutReady(db.entities[key], t.Region(), t.from, timeoutMs, now) {
        TimeoutSpecReady(reg, Begin(db), clock, key, t, timeoutMs, now);
        var spec := TimeoutSpec(reg[key.machine], db.entities[key], t, timeoutMs, now);
        assert ReadyWrite(reg, db, request, key, spec);
        match WriteEntity(reg, Begin(db), TriggerOf(request), key, db.entities[key], spec)
        case Ok(w) => assert WriteGives(reg, db, request, key, spec, Ok(w.0));
        case Err(error) => assert WriteGives(reg, db, request, key, spec, Err(error));
      }
  }

  /** The target resolves, is new to the event, and every step to it is current. */
  ghost predicate TargetReady(
    reg: Registry, tx: Tx, trig: Trigger, start: Key, target: seq<TargetStep>, params: Params)
    requires start.machine in reg
  {
    && ResolveHops(reg, start, target).Ok?
    && start in tx.entities && tx.entities[start].Live()
    && HopsCurrent(tx.entities, ResolveHops(reg, start, target).value)
    && var d := HopsEnd(start, ResolveHops(reg, start, target).value);
       d.machine in reg && Dedup(tx.history, d, trig.eventType, trig.timestamp, params) == New
  }

  lemma TargetedCases(reg: Registry, tx: Tx, trig: Trigger, start: Key, target: seq<TargetStep>, params: Params)
    requires start.machine in reg
    ensures var outcome := ExecuteTargeted(reg, tx, trig, start, target, params);
            if TargetReady(reg, tx, trig, start, target, params) then
              var d := HopsEnd(start, ResolveHops(reg, start, target).value);
              outcome == TransitionInTx(reg, tx, trig, d, params, false)
            else
              outcome == Ok(AlreadySeen) ||
                  (outcome.Err? && TargetReason(reg, tx, trig, start, target, params, outcome.error))
  {
    ResolvedRegistered(reg, start, target);
  }

  lemma TargetedWritten(
    reg: Registry, db: Db, request: Request, target: seq<TargetStep>, params: Params, outcome: Result<Outcome>)
    requires WellFormedRegistry(reg) && Consistent(reg, db) && request.key.machine in reg
    requires TargetReady(reg, Begin(db), TriggerOf(request), request.key, target, params)
    requires var d := HopsEnd(request.key, ResolveHops(reg, request.key, target).value);
             outcome == TransitionInTx(reg, Begin(db), TriggerOf(request), d, params, false)
    ensures outcome.Err? ==> SomeWriteGives(reg, db, request, Err(outcome.error))
    ensures outcome.Ok? && (outcome.value.Applied? || outcome.value.Forwarded?) ==>
              SomeWriteGives(reg, db, request, Ok(outcome.value.tx))
  {
    var d := HopsEnd(request.key, ResolveHops(reg, request.key, target).value);
    var path := AcceptedIsLive(reg, db, request.key, target, d);
    SameRoot(db, request.key, path, d);
    TargetHandled(reg, Begin(db), TriggerOf(request), d, params);
    if outcome.Err? {
      HandledWritten(reg, db, request, d, params, d, Err(outcome.error));
    } else if outcome.value.Applied? || outcome.value.Forwarded? {
      HandledWritten(reg, db, request, d, params, d, Ok(outcome.value.tx));
    }
  }

  /** A live target that has not seen the event handles it or has no transition for it. */
  lemma TargetHandled(reg: Registry, tx: Tx, trig: Trigger, d: Key, params: Params)
    requires d.machine in reg && d in tx.entities && tx.entities[d].Live()
    requires Dedup(tx.history, d, trig.eventType, trig.timestamp, params) == New
    ensures var outcome := TransitionInTx(reg, tx, trig, d, params, false);
            && (outcome.Err? ==> Handled(reg, tx, trig, d, params, d, Err(outcome.error)))
            && (outcome.Ok? && (outcome.value.Applied? || outcome.value.Forwarded?) ==>
                  Handled(reg, tx, trig, d, params, d, Ok(outcome.value.tx)))
  {
    TakenOrPassedOn(reg, tx, trig, d, params, false);
  }

  /** What was handled at `h` is what a ready write there gave. */
  lemma HandledWritten(reg: Registry, db: Db, request: Request, key: Key, params: Params, h: Key, r: Result<Tx>)
    requires WellFormedRegistry(reg) && Consistent(reg, db)
    requires Handled(reg, Begin(db), TriggerOf(request), key, params, h, r)
    requires request.key in db.entities &&
             RootOf(key, db.entities[key]) == RootOf(request.key, db.entities[request.key])
    ensures SomeWriteGives(reg, db, request, r)
  {
    var trig := TriggerOf(request);
    var spec := HandlerSpec(reg, Begin(db), trig, params, h);
    var t := OwnTransition(reg, db.entities[h], h, trig.eventType, params).value;
    EventSpecReady(reg, Begin(db), trig, h, t, params);
    assert WriteGives(reg, db, request, h, spec, r);
  }

  lemma OutcomeWritten(reg: Registry, db: Db, request: Request, params: Params, h: Key, outcome: Result<Outcome>)
    requires WellFormedRegistry(reg) && Consistent(reg, db)
    requires HandledBy(reg, Begin(db), TriggerOf(request), request.key, params, h, outcome)
    ensures outcome.Err? ==>
              || EventReason(Begin(db), TriggerOf(request), request.key, params, outcome.error)
              || SomeWriteGives(reg, db, request, Err(outcome.error))
    ensures outcome.Ok? && (outcome.value.Applied? || outcome.value.Forwarded?) ==>
              SomeWriteGives(reg, db, request, Ok(outcome.value.tx))
  {
    if outcome.Err? && !EventReason(Begin(db), TriggerOf(request), request.key, params, outcome.error) {
      HandledWritten(reg, db, request, request.key, params, h, Err(outcome.error));
    } else if outcome.Ok? && (outcome.value.Applied? || outcome.value.Forwarded?) {
      HandledWritten(reg, db, request, request.key, params, h, Ok(outcome.value.tx));
    }
  }
}
