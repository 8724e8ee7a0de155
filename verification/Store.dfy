/** The database as one transaction sees it, and the three writes made to it: an appended history
    row, a guarded entity update and an entity insert. */
module Store {
  import opened Models
  import opened Engine

  datatype Cause =
    | NoCause
    | JoinCause(causeKey: Identity, step: nat)
    | TimeoutCause(region: string, entry: int, enteredAt: int, basis: Basis, timeoutMs: int, dueAt: int)
    | SubCompleteCause(trigger: EventType, timestamp: int, parentEntry: Step, basis: Basis, enteredBy: Option<RowRef>,
                       child: Key, childState: Encoded, childEnd: RowRef)
    | CancelCause(reason: CancelReason, parent: Step, cancelledBy: RowRef)

  datatype CancelReason = ParentExit | ParentCompleted | AncestorCancelled

  /** A history row. Its id is its position in the history plus one. */
  datatype Row = Row(
    entity: Key,
    from: Encoded,
    to: Encoded,
    eventType: EventType,
    params: Params,
    region: string,
    timestamp: int,
    createdAt: int,
    identity: Identity,
    cause: Cause)

  /** A managed child was started, completed or cancelled in a commit. */
  datatype InstanceEvent =
    | Started(child: Key, depth: nat, parent: Step)
    | Finished(child: Key, depth: nat, parent: Step, end: RowRef, parentTo: string, parentWrite: Option<RowRef>)
    | Dropped(child: Key, depth: nat, parent: Step, reason: CancelReason, end: RowRef)

  /** The store and the commit's lifecycle events so far. */
  datatype Tx = Tx(entities: map<Key, Entity>, history: seq<Row>, events: seq<InstanceEvent>)

  /** What started the transaction, and the clock it reads. */
  datatype Trigger = Trigger(eventType: EventType, timestamp: int, now: int)

  predicate IdentityTaken(history: seq<Row>, key: Key, identity: Identity) {
    exists i :: 0 <= i < |history| && history[i].entity == key && history[i].identity == identity
  }

  /** The unique index refuses a second row with the same identity. */
  function InsertHistory(tx: Tx, row: Row): Result<Tx> {
    if IdentityTaken(tx.history, row.entity, row.identity) then Err(Conflict)
    else Ok(tx.(history := tx.history + [row]))
  }

  /** The version-guarded update of one entity row. */
  function UpdateEntity(
    tx: Tx, key: Key, states: StateMap, context: Option<Context>, entries: StoredEntries, expectedVersion: int,
    now: int, instance: Option<Instance>): Result<Tx>
  {
    if key !in tx.entities || tx.entities[key].version != expectedVersion then
      Err(Conflict)
    else
      var e := tx.entities[key];
      var kept := if context.Some? then context.value else e.context;
      var updated := Entity(states, kept, entries.version, e.createdAt, now, Some(entries), instance);
      Ok(tx.(entities := tx.entities[key := updated]))
  }

  function NewEntity(states: StateMap, context: Context, now: int, instance: Option<Instance>): Entity {
    Entity(states, context, 1, now, now, Some(InitialEntries(states, now)), instance)
  }

  // ---------------------------------------------------------------- one write of one entity

  datatype WriteSpec = WriteSpec(
    eventType: EventType,
    from: string,
    to: string,
    region: string,
    rowRegion: string,
    params: Params,
    timestamp: int,
    identity: Identity,
    cause: Cause,
    newStates: StateMap,
    joins: seq<JoinFired>,
    context: Option<Context>)

  function MainRow(key: Key, spec: WriteSpec, now: int): Row {
    Row(key, Plain(spec.from), Plain(spec.to), spec.eventType, spec.params, spec.rowRegion,
        spec.timestamp, now, spec.identity, spec.cause)
  }

  function JoinRow(
    key: Key, fired: JoinFired, version: int, step: nat, cause: Identity, timestamp: int, now: int): Row
  {
    Row(key, Plain(fired.from), Plain(fired.targetState), JoinEvent, map[], fired.targetRegion,
        timestamp, now, JoinId(fired.targetRegion, version, step), JoinCause(cause, step))
  }

  /** Record the fired joins from number `step` on, in cascade order, with what they entered. */
  function InsertJoinRows(
    tx: Tx, key: Key, joins: seq<JoinFired>, step: nat, version: int, cause: Identity, timestamp: int, now: int)
    : Result<(Tx, seq<Entered>)>
    requires step <= |joins|
    decreases |joins| - step
  {
    if step == |joins| then
      Ok((tx, []))
    else
      var row := JoinRow(key, joins[step], version, step, cause, timestamp, now);
      var tx1 :- InsertHistory(tx, row);
      var entered := Entered(joins[step].targetRegion, joins[step].targetState, RowRef(|tx1.history|, row.identity));
      var (tx2, rest) :- InsertJoinRows(tx1, key, joins, step + 1, version, cause, timestamp, now);
      Ok((tx2, [entered] + rest))
  }

  /** What one write of one entity left for the lifecycle that follows it. */
  datatype OwnWrite = OwnWrite(tx: Tx, row: RowRef, entries: StoredEntries, instance: Option<Instance>,
                               completion: Option<string>)

  /** The parent target if the written states complete the instance. */
  function CompletionOf(reg: Registry, instance: Option<Instance>, states: StateMap): Result<Option<string>> {
    if instance.None? then
      Ok(None)
    else if instance.value.status != Active then
      Err(InstanceNotActive)
    else
      var link := instance.value.link;
      var parent :- LoadMachine(reg, link.machine);
      match parent.ManagedSub(link.region, link.state)
      case None => Ok(None)
      case Some(sub) => Ok(CompletionTarget(sub, states))
  }

  function EndInstance(instance: Option<Instance>, completion: Option<string>, row: RowRef): Option<Instance> {
    if instance.Some? && completion.Some? then
      Some(instance.value.(status := Completed, ended := Some(row)))
    else
      instance
  }

  /** The main row and a row per fired join, with what they entered. */
  function InsertWriteRows(tx: Tx, key: Key, spec: WriteSpec, version: int, now: int): Result<(Tx, seq<Entered>)> {
    var tx1 :- InsertHistory(tx, MainRow(key, spec, now));
    var row := RowRef(|tx1.history|, spec.identity);
    var (tx2, joined) :- InsertJoinRows(tx1, key, spec.joins, 0, version, spec.identity, spec.timestamp, now);
    Ok((tx2, [Entered(spec.region, spec.to, row)] + joined))
  }

  /** History rows, region entries, completion and the entity's own update. */
  function WriteOwn(reg: Registry, tx: Tx, now: int, key: Key, entity: Entity, spec: WriteSpec): Result<OwnWrite> {
    var version := entity.version + 1;
    var row := RowRef(|tx.history| + 1, spec.identity);
    var (tx2, entered) :- InsertWriteRows(tx, key, spec, version, now);
    var entries := AdvanceEntries(EffectiveEntries(entity), spec.newStates, entered, version, now);
    var completion :- CompletionOf(reg, entity.instance, spec.newStates);
    var instance := EndInstance(entity.instance, completion, row);
    var tx3 :- UpdateEntity(tx2, key, spec.newStates, spec.context, entries, entity.version, now, instance);
    Ok(OwnWrite(tx3, row, entries, instance, completion))
  }

  // ---------------------------------------------------------------- one cancelled instance

  function CancelRow(key: Key, child: Entity, trig: Trigger, reason: CancelReason, cancelledBy: RowRef): Row
    requires child.instance.Some?
  {
    var link := child.instance.value.link;
    Row(key, Encode(child.states), Encode(child.states), SubCancel, map[], "",
        trig.timestamp, trig.now, CancelId(link.entry), CancelCause(reason, link, cancelledBy))
  }

  function CancelledInstance(instance: Instance, end: RowRef): Instance {
    instance.(status := Cancelled, ended := Some(end))
  }

  /** Appends a `$sub_cancel` row and gives the instance its end; where the instance was is kept. */
  function CancelOne(
    tx: Tx, trig: Trigger, key: Key, child: Entity, reason: CancelReason, cancelledBy: RowRef): Result<Tx>
    requires child.instance.Some?
  {
    var instance := child.instance.value;
    var row := CancelRow(key, child, trig, reason, cancelledBy);
    var tx1 :- InsertHistory(tx, row);
    var end := RowRef(|tx1.history|, row.identity);
    var entries := StoredEntries(child.version + 1, EffectiveEntries(child));
    var tx2 :- UpdateEntity(tx1, key, child.states, None, entries, child.version, trig.now,
                            Some(CancelledInstance(instance, end)));
    Ok(tx2.(events := tx2.events + [Dropped(key, instance.depth, instance.link, reason, end)]))
  }

  // ---------------------------------------------------------------- measures

  /** Keys at least as long as `id`: the child of an entity always has a longer id. */
  function KeysFrom(keys: set<Key>, id: string): set<Key> {
    set k | k in keys && |k.id| >= |id|
  }

  /** The active managed instances. */
  function ActiveKeys(entities: map<Key, Entity>): set<Key> {
    set k | k in entities && entities[k].IsActiveChild()
  }
}
