/** The steps of the API and the scheduler. Each is one serialized transaction: it commits, or leaves
    the store as it was. */
module Requests {
  import opened Names
  import opened Models
  import opened Engine
  import opened Store
  import opened Lifecycle

  // ---------------------------------------------------------------- dedup

  datatype Seen = New | Duplicate | Clash

  predicate SameEvent(row: Row, key: Key, eventType: EventType, timestamp: int) {
    row.entity == key && row.eventType == eventType && row.timestamp == timestamp
  }

  /** A row with the same type, time and params makes the event a duplicate. If only the params differ,
      the two clash. */
  function Dedup(history: seq<Row>, key: Key, eventType: EventType, timestamp: int, params: Params): Seen {
    if exists i :: 0 <= i < |history| && SameEvent(history[i], key, eventType, timestamp) && history[i].params == params
    then
      Duplicate
    else if exists i :: 0 <= i < |history| && SameEvent(history[i], key, eventType, timestamp) then
      Clash
    else
      New
  }

  // ---------------------------------------------------------------- one event at one entity

  datatype Outcome =
    | Applied(tx: Tx, written: RowRef)
    | Forwarded(tx: Tx, child: Key)
    | AlreadySeen
    | NoTransition

  /** The event's write: to the transition's target, joins and merged context included. */
  function EventSpec(machine: Machine, entity: Entity, t: Transition, params: Params, trig: Trigger): WriteSpec
    requires t.Region() in entity.states
  {
    var moved := entity.states[t.Region() := t.to];
    var fired := JoinCascade(machine.joins, moved, JOIN_DEPTH);
    WriteSpec(trig.eventType, t.from, t.to, t.Region(), RowRegion(machine, t.Region()), params, trig.timestamp,
              EventId(trig.eventType, trig.timestamp), NoCause,
              ApplyFired(moved, fired), fired, Some(entity.context + params))
  }

  /** Deduplicate, refuse an ended instance, then apply the entity's own transition; without one, and
      if `forward`, try its active children. */
  function TransitionInTx(
    reg: Registry, tx: Tx, trig: Trigger, key: Key, params: Params, forward: bool): Result<Outcome>
    requires key.machine in reg
    decreases KeysFrom(tx.entities.Keys, key.id), 1, 0
  {
    if key !in tx.entities then
      Err(EntityNotFound)
    else
      var entity := tx.entities[key];
      match Dedup(tx.history, key, trig.eventType, trig.timestamp, params)
      case Duplicate => Ok(AlreadySeen)
      case Clash => Err(EventIdentityConflict)
      case New =>
        if !entity.Live() then
          Err(InstanceNotActive)
        else
          EvaluatedInRegion(reg[key.machine].transitions, entity, trig.eventType, params);
          match Evaluate(reg[key.machine].transitions, entity.states, entity.context, trig.eventType, params)
          case Some(t) =>
            var w :- WriteEntity(reg, tx, trig, key, entity, EventSpec(reg[key.machine], entity, t, params, trig));
            Ok(Applied(w.0, w.1))
          case None =>
            if forward then Forward(reg, tx, trig, key, params, CompoundStates(reg[key.machine], entity.states))
            else Ok(NoTransition)
  }

  lemma {:induction false} EvaluatedInRegion(
    transitions: seq<Transition>, entity: Entity, eventType: EventType, params: Params)
    ensures var t := Evaluate(transitions, entity.states, entity.context, eventType, params);
            t.Some? ==> Enabled(t.value, entity.states, entity.context, eventType, params)
    decreases |transitions|
  {
    if transitions != [] {
      EvaluatedInRegion(transitions[1..], entity, eventType, params);
    }
  }

  datatype Compound = Compound(state: string, region: string, sub: SubMachine)

  /** Where an event can be passed down: the current states with a sub-machine, following the order of
      the regions. */
  function CompoundStates(machine: Machine, states: StateMap): seq<Compound> {
    if !machine.IsParallel() then
      var current := StateOr(states, DEFAULT_REGION, "");
      if current in machine.subs then [Compound(current, DEFAULT_REGION, machine.subs[current])] else []
    else
      CompoundRegions(machine.regions, states)
  }

  function CompoundRegions(regions: seq<RegionDef>, states: StateMap): seq<Compound> {
    if regions == [] then []
    else
      var rest := CompoundRegions(regions[1..], states);
      var r := regions[0];
      if r.id in states && states[r.id] in r.subs then
        [Compound(states[r.id], r.id, r.subs[states[r.id]])] + rest
      else
        rest
  }

  /** Untargeted delivery into the active managed children: the first that handles the event. */
  function Forward(
    reg: Registry, tx: Tx, trig: Trigger, key: Key, params: Params, compounds: seq<Compound>): Result<Outcome>
    requires key in tx.entities
    decreases KeysFrom(tx.entities.Keys, key.id), 0, |compounds|
  {
    if compounds == [] then
      Ok(NoTransition)
    else
      var c := compounds[0];
      var child := ChildKey(c.sub, key.id, c.state);
      ChildIsDeeper(tx.entities.Keys, key, c.state);
      if !c.sub.managed || child !in tx.entities || !tx.entities[child].IsActiveChild() then
        Forward(reg, tx, trig, key, params, compounds[1..])
      else
        var machine :- LoadMachine(reg, child.machine);
        var outcome :- TransitionInTx(reg, tx, trig, child, params, true);
        if outcome.Applied? || outcome.Forwarded? then
          Ok(Forwarded(outcome.tx, child))
        else
          Forward(reg, tx, trig, key, params, compounds[1..])
  }

  // ---------------------------------------------------------------- targeted delivery

  datatype TargetStep = TargetStep(region: string, state: string, entry: Option<int>)

  datatype Hop = Hop(parent: Key, region: string, state: string, entry: Option<int>, child: Key)

  /** The key each hop leads to. No store is read, so an instance that never was can be the answer. */
  function ResolveHops(reg: Registry, key: Key, target: seq<TargetStep>): Result<seq<Hop>>
    requires key.machine in reg
    decreases |target|
  {
    if target == [] then
      Ok([])
    else
      var step := target[0];
      match reg[key.machine].ManagedSub(step.region, step.state)
      case None => Err(BadRequest)
      case Some(sub) =>
        var child := ChildKey(sub, key.id, step.state);
        var machine :- LoadMachine(reg, child.machine);
        var rest :- ResolveHops(reg, child, target[1..]);
        Ok([Hop(key, step.region, step.state, step.entry, child)] + rest)
  }

  /** The entity a resolved path ends at. */
  function HopsEnd(start: Key, hops: seq<Hop>): Key {
    if hops == [] then start else hops[|hops| - 1].child
  }

  /** Both ends of the hop are live, the parent still in the entry that the target names and the child
      linked to it. */
  predicate HopCurrent(entities: map<Key, Entity>, hop: Hop) {
    && hop.parent in entities
    && entities[hop.parent].Live()
    && hop.region in entities[hop.parent].states
    && var entry := EntryOf(entities[hop.parent], hop.region);
       && entry.state == hop.state
       && (hop.entry.Some? ==> hop.entry.value == entry.entry)
       && hop.child in entities
       && entities[hop.child].IsActiveChild()
       && entities[hop.child].instance.value.link.entity == hop.parent.id
       && entities[hop.child].instance.value.link.entry == entry.entry
  }

  predicate HopsCurrent(entities: map<Key, Entity>, hops: seq<Hop>) {
    forall i :: 0 <= i < |hops| ==> HopCurrent(entities, hops[i])
  }

  /** Delivery by path. A repetition is recognised before the hops are checked, and nothing is forwarded
      below the target. */
  function ExecuteTargeted(
    reg: Registry, tx: Tx, trig: Trigger, start: Key, target: seq<TargetStep>, params: Params): Result<Outcome>
    requires start.machine in reg
  {
    var hops :- ResolveHops(reg, start, target);
    var key := HopsEnd(start, hops);
    match Dedup(tx.history, key, trig.eventType, trig.timestamp, params)
    case Duplicate => Ok(AlreadySeen)
    case Clash => Err(EventIdentityConflict)
    case New =>
      if start !in tx.entities then
        Err(EntityNotFound)
      else if !tx.entities[start].Live() || !HopsCurrent(tx.entities, hops) then
        Err(TargetNotActive)
      else
        ResolvedRegistered(reg, start, target);
        TransitionInTx(reg, tx, trig, key, params, false)
  }

  lemma {:induction false} ResolvedRegistered(reg: Registry, key: Key, target: seq<TargetStep>)
    requires key.machine in reg
    ensures var r := ResolveHops(reg, key, target);
            r.Ok? ==> |r.value| == |target| && HopsEnd(key, r.value).machine in reg
    decreases |target|
  {
    var r := ResolveHops(reg, key, target);
    if target != [] && r.Ok? {
      ResolvedRegistered(reg, r.value[0].child, target[1..]);
    }
  }

  // ---------------------------------------------------------------- creation

  /** A new root in its initial states; the children of its managed initial states start with it. */
  function CreateRoot(reg: Registry, tx: Tx, trig: Trigger, key: Key, context: Context): Result<Tx>
    requires key.machine in reg
  {
    if key in tx.entities then
      Err(Conflict)
    else
      var states := reg[key.machine].InitialStates();
      var tx1 := tx.(entities := tx.entities[key := NewEntity(states, context, trig.now, None)]);
      StartChildren(reg, tx1, trig, key, [], states, SortedKeys(states.Keys))
  }

  // ---------------------------------------------------------------- timers

  /** What a timer needs of the region: to be in `from`, entered at least the timeout ago. */
  predicate TimeoutReady(e: Entity, region: string, from: string, timeoutMs: int, now: int) {
    && e.Live()
    && region in e.states && e.states[region] == from
    && TimeoutDue(EntryOf(e, region), timeoutMs, now)
  }

  function TimeoutSpec(machine: Machine, entity: Entity, t: Transition, timeoutMs: int, now: int): WriteSpec
    requires t.Region() in entity.states
  {
    var region := t.Region();
    var entry := EntryOf(entity, region);
    var moved := entity.states[region := t.to];
    var fired := if machine.IsParallel() then JoinCascade(machine.joins, moved, JOIN_DEPTH) else [];
    WriteSpec(TimeoutEvent, t.from, t.to, region, RowRegion(machine, region), entity.context, now,
              TimeoutId(region, entry.entry),
              TimeoutCause(region, entry.entry, entry.enteredAt, entry.basis, timeoutMs,
                           SaturatingAdd(entry.enteredAt, timeoutMs)),
              ApplyFired(moved, fired), fired, None)
  }

  /** `None` if the timer is not ready at `now`, the time of the tick; the write itself has the clock's
      time. */
  function FireTimeout(
    reg: Registry, tx: Tx, clock: int, key: Key, t: Transition, timeoutMs: int, now: int): Result<Option<Tx>>
    requires key.machine in reg
  {
    if key !in tx.entities || !TimeoutReady(tx.entities[key], t.Region(), t.from, timeoutMs, now) then
      Ok(None)
    else
      var entity := tx.entities[key];
      match WriteEntity(reg, tx, Trigger(TimeoutEvent, now, clock), key, entity,
                        TimeoutSpec(reg[key.machine], entity, t, timeoutMs, now))
      case Ok(w) => Ok(Some(w.0))
      case Err(Conflict) => Ok(None)
      case Err(error) => Err(error)
  }

  // ---------------------------------------------------------------- steps and runs

  /** The store between transactions. */
  datatype Db = Db(entities: map<Key, Entity>, history: seq<Row>)

  function Begin(db: Db): Tx {
    Tx(db.entities, db.history, [])
  }

  function Commit(tx: Tx): Db {
    Db(tx.entities, tx.history)
  }

  datatype Request =
    | Create(key: Key, context: Context, orIgnore: bool, clock: int)
    | Event(key: Key, name: string, params: Params, timestamp: int, clock: int)
    | Targeted(key: Key, target: seq<TargetStep>, name: string, params: Params, timestamp: int, clock: int)
    | Timer(key: Key, transition: Transition, timeoutMs: int, now: int, clock: int)

  /** What a request's transaction records as its trigger, and the clock it reads. */
  function TriggerOf(request: Request): Trigger {
    match request
    case Create(_, _, _, clock) => Trigger(External("$create"), clock, clock)
    case Event(_, name, _, timestamp, clock) => Trigger(EventNamed(name), timestamp, clock)
    case Targeted(_, _, name, _, timestamp, clock) => Trigger(EventNamed(name), timestamp, clock)
    case Timer(_, _, _, now, clock) => Trigger(TimeoutEvent, now, clock)
  }

  /** The transaction that a step commits, if it changes anything. */
  function ServeTx(reg: Registry, db: Db, request: Request): Result<Option<Tx>>
  {
    if request.key.machine !in reg then
      Err(MachineNotFound)
    else
      match request
      case Create(key, context, orIgnore, _) =>
        if orIgnore && key in db.entities then
          Ok(None)
        else
          var tx :- CreateRoot(reg, Begin(db), TriggerOf(request), key, context);
          Ok(Some(tx))
      case Event(key, _, params, _, _) =>
        var outcome :- TransitionInTx(reg, Begin(db), TriggerOf(request), key, params, true);
        Ok(CommittedTx(outcome))
      case Targeted(key, target, _, params, _, _) =>
        var outcome :- ExecuteTargeted(reg, Begin(db), TriggerOf(request), key, target, params);
        Ok(CommittedTx(outcome))
      case Timer(key, t, timeoutMs, now, clock) =>
        FireTimeout(reg, Begin(db), clock, key, t, timeoutMs, now)
  }

  function CommittedTx(outcome: Outcome): Option<Tx> {
    if outcome.Applied? || outcome.Forwarded? then Some(outcome.tx) else None
  }

  /** An error or an answer without a write leaves the store as it was. */
  function StoreAfter(db: Db, answer: Result<Option<Tx>>): Db {
    match answer
    case Ok(Some(tx)) => Commit(tx)
    case _ => db
  }

  /** One serialized step. */
  function Serve(reg: Registry, db: Db, request: Request): Db {
    StoreAfter(db, ServeTx(reg, db, request))
  }

  const EMPTY: Db := Db(map[], [])

  /** A served request: what it committed or was refused for, and the store after it. */
  datatype Served = Served(request: Request, answer: Result<Option<Tx>>, db: Db) {
    predicate Commits() {
      answer.Ok? && answer.value.Some?
    }

    function Committed(): Tx
      requires Commits()
    {
      answer.value.value
    }
  }

  /** The store after the first `n` requests of a run, which begins with an empty database. */
  function StoreAt(run: seq<Served>, n: nat): Db
    requires n <= |run|
  {
    if n == 0 then EMPTY else run[n - 1].db
  }

  ghost predicate ServedAt(reg: Registry, run: seq<Served>, n: nat)
    requires n < |run|
  {
    && run[n].answer == ServeTx(reg, StoreAt(run, n), run[n].request)
    && run[n].db == StoreAfter(StoreAt(run, n), run[n].answer)
  }

  /** Each request of the run was served on the store that the one before it left. */
  ghost predicate IsRun(reg: Registry, run: seq<Served>) {
    forall n {:trigger ServedAt(reg, run, n)} :: 0 <= n < |run| ==> ServedAt(reg, run, n)
  }

  /** The run of a sequence of requests. */
  function Run(reg: Registry, requests: seq<Request>): (run: seq<Served>)
    ensures |run| == |requests|
  {
    if requests == [] then []
    else
      var n := |requests| - 1;
      var run := Run(reg, requests[..n]);
      var answer := ServeTx(reg, StoreAt(run, n), requests[n]);
      run + [Served(requests[n], answer, StoreAfter(StoreAt(run, n), answer))]
  }

  /** Every sequence of requests has a run. */
  lemma {:induction false} RunIsRun(reg: Registry, requests: seq<Request>)
    ensures IsRun(reg, Run(reg, requests))
    ensures forall n :: 0 <= n < |requests| ==> Run(reg, requests)[n].request == requests[n]
    decreases |requests|
  {
    if requests != [] {
      var n := |requests| - 1;
      var before, run := Run(reg, requests[..n]), Run(reg, requests);
      RunIsRun(reg, requests[..n]);
      assert run[..n] == before;
      forall i | 0 <= i < |run| ensures ServedAt(reg, run, i) {
        if i < n {
          assert ServedAt(reg, before, i);
        }
      }
    }
  }

}
