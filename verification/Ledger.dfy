/** What the history says about the entities: replay, versions, identities, entry documents and the
    provenance of completions. Every write keeps it, one entity at a time. */
module Ledger {
  import opened Models
  import opened Engine
  import opened Store
  import opened Lifecycle

  // ---------------------------------------------------------------- entities

  /** The stored entry document belongs to the row and covers every region. */
  ghost predicate DocumentCurrent(e: Entity) {
    && e.entries.Some?
    && e.entries.value.version == e.version
    && e.entries.value.regions.Keys == e.states.Keys
    && forall r {:trigger EntryCurrent(e, r)} :: r in e.states ==> EntryCurrent(e, r)
  }

  ghost predicate EntryCurrent(e: Entity, r: string) {
    && r in e.states
    && HasStoredEntry(e, r)
    && 1 <= e.entries.value.regions[r].entry <= e.version
  }

  function SubOf(reg: Registry, link: Step): Option<SubMachine> {
    if link.machine in reg then reg[link.machine].ManagedSub(link.region, link.state) else None
  }

  /** `key` is the child that the step names. */
  ghost predicate NamesChild(reg: Registry, link: Step, key: Key) {
    SubOf(reg, link).Some? && key == ChildKey(SubOf(reg, link).value, link.entity, link.state)
  }

  ghost predicate InstanceOk(reg: Registry, key: Key, e: Entity) {
    e.instance.Some? ==>
      var i := e.instance.value;
      && NamesChild(reg, i.link, key)
      && i.depth == |i.Path()| <= MAX_MANAGED_DEPTH
      && i.started == 1
      && (i.status == Active <==> i.ended.None?)
  }

  /** An active instance is only left in completing states if it has not been written since its start. */
  ghost predicate NotMissed(reg: Registry, e: Entity) {
    e.IsActiveChild() && e.version > 1 && SubOf(reg, e.instance.value.link).Some? ==>
      CompletionTarget(SubOf(reg, e.instance.value.link).value, e.states).None?
  }

  ghost predicate EntityOk(reg: Registry, key: Key, e: Entity) {
    && key.machine in reg
    && e.states.Keys == reg[key.machine].RegionIds()
    && e.version >= 1
    && DocumentCurrent(e)
    && InstanceOk(reg, key, e)
    && NotMissed(reg, e)
    && (e.version == 1 ==> Unwritten(e))
  }

  /** Every region is in the entry in which the entity was created. */
  ghost predicate Unwritten(e: Entity) {
    e.updatedAt == e.createdAt &&
    forall r {:trigger UnwrittenAt(e, r)} :: r in e.states ==> UnwrittenAt(e, r)
  }

  ghost predicate UnwrittenAt(e: Entity, r: string) {
    r in e.states && EntryOf(e, r) == RegionEntry(e.states[r], 1, e.createdAt, Created, None)
  }

  // ---------------------------------------------------------------- replay

  /** The region that a row's `region` column stands for. */
  function RowTarget(row: Row): string {
    if row.region == "" then DEFAULT_REGION else row.region
  }

  function ApplyRow(states: StateMap, row: Row): StateMap {
    if row.identity.CancelId? || row.to.Object? then states else states[RowTarget(row) := row.to.state]
  }

  /** Fold of the entity's non-cancel rows, in id order, over its initial map. */
  function Replay(history: seq<Row>, key: Key, initial: StateMap): StateMap {
    if history == [] then initial
    else
      var last := history[|history| - 1];
      var states := Replay(history[..|history| - 1], key, initial);
      if last.entity == key then ApplyRow(states, last) else states
  }

  /** The entity's rows that are not joins. */
  function CountWrites(history: seq<Row>, key: Key): nat {
    if history == [] then 0
    else
      var last := history[|history| - 1];
      CountWrites(history[..|history| - 1], key) + if last.entity == key && !last.identity.JoinId? then 1 else 0
  }

  /** The row that ended the instance, if it has ended. */
  ghost predicate EndRecorded(key: Key, e: Entity, history: seq<Row>) {
    e.instance.Some? && e.instance.value.ended.Some? ==>
      var end := e.instance.value.ended.value;
      && 1 <= end.row <= |history|
      && history[end.row - 1].entity == key
      && history[end.row - 1].identity == end.key
      && (e.instance.value.status == Cancelled <==> end.key.CancelId?)
      && (forall i {:trigger WrittenBy(history, key, i, end.row)} :: 0 <= i < |history| ==>
        WrittenBy(history, key, i, end.row))
  }

  /** Apart from the joins of the ending write, the entity has no row after its end. */
  ghost predicate WrittenBy(history: seq<Row>, key: Key, i: nat, end: nat)
    requires i < |history|
  {
    history[i].entity == key && !history[i].identity.JoinId? ==> i + 1 <= end
  }

  ghost predicate Replayed(reg: Registry, key: Key, e: Entity, history: seq<Row>)
    requires key.machine in reg
  {
    && e.states == Replay(history, key, reg[key.machine].InitialStates())
    && e.version == 1 + CountWrites(history, key)
    && EndRecorded(key, e, history)
    && OriginsOk(key, e, history)
  }

  /** The entity's row `origin` entered `state` of `region`. */
  ghost predicate EnteredBy(history: seq<Row>, key: Key, region: string, state: string, origin: RowRef) {
    && 1 <= origin.row <= |history|
    && var row := history[origin.row - 1];
       row.entity == key && row.identity == origin.key && RowTarget(row) == region && row.to == Plain(state)
  }

  /** An entry made by a transition names the row that made it. */
  ghost predicate OriginOk(key: Key, e: Entity, history: seq<Row>, r: string) {
    r in e.states && (EntryOf(e, r).basis == ByTransition ==>
      EntryOf(e, r).origin.Some? && EnteredBy(history, key, r, e.states[r], EntryOf(e, r).origin.value))
  }

  ghost predicate OriginsOk(key: Key, e: Entity, history: seq<Row>) {
    forall r {:trigger OriginOk(key, e, history, r)} :: r in e.states ==> OriginOk(key, e, history, r)
  }

  // ---------------------------------------------------------------- rows

  ghost predicate UsedEntry(e: Entity, region: string, entry: int) {
    region in e.states && entry < EntryOf(e, region).entry
  }

  ghost predicate TimeoutCauseOk(cause: Cause, region: string, entry: int, timestamp: int) {
    && cause.TimeoutCause?
    && cause.region == region
    && cause.entry == entry
    && cause.dueAt == SaturatingAdd(cause.enteredAt, cause.timeoutMs) <= timestamp
  }

  /** What each kind of row says about its entity from then on. */
  ghost predicate RowOk(row: Row, e: Entity) {
    match row.identity
    case EventId(eventType, timestamp) =>
      row.eventType == eventType && row.timestamp == timestamp && row.cause.NoCause?
    case TimeoutId(region, entry) =>
      row.eventType == TimeoutEvent && UsedEntry(e, region, entry) &&
          TimeoutCauseOk(row.cause, region, entry, row.timestamp)
    case SubId(region, _, entry) =>
      row.eventType == SubComplete && UsedEntry(e, region, entry) && row.cause.SubCompleteCause?
    case JoinId(_, entry, _) =>
      row.eventType == JoinEvent && 2 <= entry <= e.version && row.cause.JoinCause?
    case CancelId(_) =>
      row.eventType == SubCancel && e.instance.Some? && e.instance.value.status == Cancelled && row.cause.CancelCause?
  }

  ghost predicate RowsOk(entities: map<Key, Entity>, history: seq<Row>) {
    forall i {:trigger RowOkAt(entities, history, i)} :: 0 <= i < |history| ==> RowOkAt(entities, history, i)
  }

  ghost predicate RowOkAt(entities: map<Key, Entity>, history: seq<Row>, i: nat)
    requires i < |history|
  {
    history[i].entity in entities && RowOk(history[i], entities[history[i].entity])
  }

  /** No two rows of one entity share an identity. */
  ghost predicate UniqueIdentities(history: seq<Row>) {
    forall i, j {:trigger Distinct(history, i, j)} :: 0 <= i < j < |history| ==> Distinct(history, i, j)
  }

  ghost predicate Distinct(history: seq<Row>, i: nat, j: nat)
    requires i < |history| && j < |history|
  {
    history[i].entity == history[j].entity ==> history[i].identity != history[j].identity
  }

  /** A row that is not a join starts from the states that the rows before it left. */
  ghost predicate FromOk(reg: Registry, history: seq<Row>, i: nat)
    requires i < |history|
  {
    var row := history[i];
    && row.entity.machine in reg
    && var states := Replay(history[..i], row.entity, reg[row.entity.machine].InitialStates());
       match row.identity
       case JoinId(_, _, _) => true
       case CancelId(_) => row.from == row.to == Encode(states)
       case _ => RowTarget(row) in states && row.from == Plain(states[RowTarget(row)])
  }

  ghost predicate FromsOk(reg: Registry, history: seq<Row>) {
    forall i {:trigger FromOk(reg, history, i)} :: 0 <= i < |history| ==> FromOk(reg, history, i)
  }

  /** Appended rows: the first starts where the entity is, and the others are joins. */
  lemma FromsAppend(reg: Registry, history: seq<Row>, rows: seq<Row>)
    requires FromsOk(reg, history) && rows != []
    requires FromOk(reg, history + [rows[0]], |history|)
    requires forall i :: 0 <= i < |rows| ==> rows[i].entity.machine in reg && (i > 0 ==> rows[i].identity.JoinId?)
    ensures FromsOk(reg, history + rows)
  {
    var h := history + rows;
    forall i | 0 <= i < |h| ensures FromOk(reg, h, i) {
      if i < |history| {
        assert FromOk(reg, history, i) && h[i] == history[i] && h[..i] == history[..i];
      } else if i == |history| {
        assert h[..i] == history && (history + [rows[0]])[..i] == history && h[i] == rows[0];
      } else {
        assert h[i] == rows[i - |history|];
      }
    }
  }

  // ---------------------------------------------------------------- provenance

  function ParentKey(link: Step): Key {
    Key(link.machine, link.entity)
  }

  /** The row cites `child`'s end as the completion of its parent's entry instance. */
  ghost predicate Cites(reg: Registry, row: Row, child: Key, e: Entity) {
    && row.cause.SubCompleteCause?
    && row.cause.child == child
    && e.instance.Some?
    && e.instance.value.ended == Some(row.cause.childEnd)
    && row.cause.parentEntry == e.instance.value.link
    && row.entity == ParentKey(e.instance.value.link)
    && row.identity == SubId(e.instance.value.link.region, e.instance.value.link.state, e.instance.value.link.entry)
    && row.from == Plain(e.instance.value.link.state)
    && row.cause.childState == Encode(e.states)
    && SendsParent(reg, e, row.to)
  }

  /** The states in which an instance ended send its parent there. */
  ghost predicate SendsParent(reg: Registry, e: Entity, to: Encoded) {
    && e.instance.Some? && SubOf(reg, e.instance.value.link).Some? && to.Plain?
    && CompletionTarget(SubOf(reg, e.instance.value.link).value, e.states) == Some(to.state)
  }

  ghost predicate IsCompleted(e: Entity) {
    e.instance.Some? && e.instance.value.status == Completed
  }

  /** Every completed child is cited by a later row of its parent. `pending` just completed and is
      about to be cited. */
  ghost predicate CompletionsCited(reg: Registry, entities: map<Key, Entity>, history: seq<Row>, pending: Option<Key>) {
    forall k {:trigger CompletionCited(reg, entities, history, k)} ::
      k in entities && IsCompleted(entities[k]) && pending != Some(k) ==> CompletionCited(reg, entities, history, k)
  }

  ghost predicate CompletionCited(reg: Registry, entities: map<Key, Entity>, history: seq<Row>, k: Key) {
    k in entities &&
    exists i {:trigger CitesAt(reg, entities, history, k, i)} ::
      0 <= i < |history| && CitesAt(reg, entities, history, k, i)
  }

  ghost predicate CitesAt(reg: Registry, entities: map<Key, Entity>, history: seq<Row>, k: Key, i: nat)
    requires k in entities && i < |history|
  {
    Cites(reg, history[i], k, entities[k])
  }

  /** Every citation is of a completed child, by a row later than the child's end. */
  ghost predicate CitationsTrue(reg: Registry, entities: map<Key, Entity>, history: seq<Row>, pending: Option<Key>) {
    forall i {:trigger CitationTrue(reg, entities, history, pending, i)} ::
      0 <= i < |history| ==> CitationTrue(reg, entities, history, pending, i)
  }

  ghost predicate CitationTrue(
    reg: Registry, entities: map<Key, Entity>, history: seq<Row>, pending: Option<Key>, i: nat)
    requires i < |history|
  {
    history[i].cause.SubCompleteCause? ==>
      var child := history[i].cause.child;
      && child in entities
      && pending != Some(child)
      && IsCompleted(entities[child])
      && Cites(reg, history[i], child, entities[child])
      && history[i].cause.childEnd.row < i + 1
  }

  // ---------------------------------------------------------------- the ledger

  ghost predicate EntitiesOk(reg: Registry, entities: map<Key, Entity>, history: seq<Row>) {
    forall k {:trigger EntityOkAt(reg, entities, history, k)} :: k in entities ==> EntityOkAt(reg, entities, history, k)
  }

  ghost predicate EntityOkAt(reg: Registry, entities: map<Key, Entity>, history: seq<Row>, k: Key) {
    k in entities && EntityOk(reg, k, entities[k]) && Replayed(reg, k, entities[k], history)
  }

  ghost predicate LedgerOk(reg: Registry, entities: map<Key, Entity>, history: seq<Row>, pending: Option<Key>) {
    && EntitiesOk(reg, entities, history)
    && RowsOk(entities, history)
    && UniqueIdentities(history)
    && CompletionsCited(reg, entities, history, pending)
    && CitationsTrue(reg, entities, history, pending)
    && FromsOk(reg, history)
    && (pending.Some? ==> pending.value in entities && IsCompleted(entities[pending.value]))
  }

  // ---------------------------------------------------------------- appending rows of one entity

  ghost predicate RowsOf(rows: seq<Row>, key: Key) {
    forall i :: 0 <= i < |rows| ==> rows[i].entity == key
  }

  lemma ReplayAppend(history: seq<Row>, row: Row, key: Key, initial: StateMap)
    ensures Replay(history + [row], key, initial) ==
              if row.entity == key then ApplyRow(Replay(history, key, initial), row) else Replay(history, key, initial)
    ensures CountWrites(history + [row], key) ==
              CountWrites(history, key) + if row.entity == key && !row.identity.JoinId? then 1 else 0
  {
    assert (history + [row])[..|history|] == history;
  }

  /** Rows of one entity leave every other entity's replay and count alone. */
  lemma {:induction false} ReplayOther(history: seq<Row>, rows: seq<Row>, key: Key, other: Key, initial: StateMap)
    requires RowsOf(rows, key) && other != key
    ensures Replay(history + rows, other, initial) == Replay(history, other, initial)
    ensures CountWrites(history + rows, other) == CountWrites(history, other)
    decreases |rows|
  {
    if rows == [] {
      assert history + rows == history;
    } else {
      var init := rows[..|rows| - 1];
      assert (history + rows)[..|history + rows| - 1] == history + init;
      ReplayOther(history, init, key, other, initial);
    }
  }

  lemma {:induction false} NoRowsNoReplay(history: seq<Row>, key: Key, initial: StateMap)
    requires forall i :: 0 <= i < |history| ==> history[i].entity != key
    ensures Replay(history, key, initial) == initial
    ensures CountWrites(history, key) == 0
    decreases |history|
  {
    if history != [] {
      NoRowsNoReplay(history[..|history| - 1], key, initial);
    }
  }

  /** The join rows a write appends. */
  function JoinRows(
    key: Key, joins: seq<JoinFired>, version: int, cause: Identity, timestamp: int, now: int): (rows: seq<Row>)
    ensures |rows| == |joins|
    ensures forall i :: 0 <= i < |joins| ==> rows[i] == JoinRow(key, joins[i], version, i, cause, timestamp, now)
  {
    seq(|joins|, i requires 0 <= i < |joins| => JoinRow(key, joins[i], version, i, cause, timestamp, now))
  }

  function JoinEntries(joins: seq<JoinFired>, version: int, firstRow: nat): (entered: seq<Entered>)
    ensures |entered| == |joins|
    ensures forall i :: 0 <= i < |joins| ==>
      entered[i] == Entered(joins[i].targetRegion, joins[i].targetState,
                            RowRef(firstRow + i, JoinId(joins[i].targetRegion, version, i)))
  {
    seq(|joins|, i requires 0 <= i < |joins| =>
      Entered(joins[i].targetRegion, joins[i].targetState,
              RowRef(firstRow + i, JoinId(joins[i].targetRegion, version, i))))
  }

  lemma {:induction false} InsertJoinRowsHistory(
    tx: Tx, key: Key, joins: seq<JoinFired>, step: nat, version: int, cause: Identity, timestamp: int, now: int)
    requires step <= |joins|
    ensures var r := InsertJoinRows(tx, key, joins, step, version, cause, timestamp, now);
            r.Ok? ==>
              && r.value.0 == tx.(history := tx.history + JoinRows(key, joins, version, cause, timestamp, now)[step..])
              && (UniqueIdentities(tx.history) ==> UniqueIdentities(r.value.0.history))
    decreases |joins| - step
  {
    var r := InsertJoinRows(tx, key, joins, step, version, cause, timestamp, now);
    var rows := JoinRows(key, joins, version, cause, timestamp, now);
    if step == |joins| {
      assert tx.history + rows[step..] == tx.history;
    } else if r.Ok? {
      var row := rows[step];
      InsertUnique(tx, row);
      InsertJoinRowsHistory(tx.(history := tx.history + [row]), key, joins, step + 1, version, cause, timestamp, now);
      assert tx.history + rows[step..] == tx.history + [row] + rows[step + 1..];
    }
  }

  lemma {:induction false} InsertJoinRowsEntered(
    tx: Tx, key: Key, joins: seq<JoinFired>, step: nat, version: int, cause: Identity, timestamp: int, now: int)
    requires step <= |joins| && step <= |tx.history|
    ensures var r := InsertJoinRows(tx, key, joins, step, version, cause, timestamp, now);
            r.Ok? ==> r.value.1 == JoinEntries(joins, version, |tx.history| + 1 - step)[step..]
    decreases |joins| - step
  {
    var r := InsertJoinRows(tx, key, joins, step, version, cause, timestamp, now);
    var entered := JoinEntries(joins, version, |tx.history| + 1 - step);
    if step < |joins| && r.Ok? {
      var row := JoinRow(key, joins[step], version, step, cause, timestamp, now);
      InsertJoinRowsEntered(tx.(history := tx.history + [row]), key, joins, step + 1, version, cause, timestamp, now);
      assert entered[step..] == [entered[step]] + entered[step + 1..];
    }
  }

  lemma InsertJoinRowsEffect(
    tx: Tx, key: Key, joins: seq<JoinFired>, version: int, cause: Identity, timestamp: int, now: int)
    ensures var r := InsertJoinRows(tx, key, joins, 0, version, cause, timestamp, now);
            r.Ok? ==>
              && r.value.0 == tx.(history := tx.history + JoinRows(key, joins, version, cause, timestamp, now))
              && r.value.1 == JoinEntries(joins, version, |tx.history| + 1)
              && (UniqueIdentities(tx.history) ==> UniqueIdentities(r.value.0.history))
  {
    InsertJoinRowsHistory(tx, key, joins, 0, version, cause, timestamp, now);
    InsertJoinRowsEntered(tx, key, joins, 0, version, cause, timestamp, now);
    var rows := JoinRows(key, joins, version, cause, timestamp, now);
    assert rows[0..] == rows;
    var entered := JoinEntries(joins, version, |tx.history| + 1);
    assert entered[0..] == entered;
  }

  lemma InsertUnique(tx: Tx, row: Row)
    ensures InsertHistory(tx, row).Ok? && UniqueIdentities(tx.history) ==>
              UniqueIdentities(InsertHistory(tx, row).value.history)
  {
    if InsertHistory(tx, row).Ok? && UniqueIdentities(tx.history) {
      var h := InsertHistory(tx, row).value.history;
      forall i, j | 0 <= i < j < |h| ensures Distinct(h, i, j) {
        if j < |tx.history| {
          assert Distinct(tx.history, i, j);
        } else {
          assert h[i] == tx.history[i];
        }
      }
    }
  }

  /** Replaying a write's join rows enters their targets, in order. */
  lemma ReplayJoins(
    history: seq<Row>, key: Key, initial: StateMap, joins: seq<JoinFired>, version: int, cause: Identity,
    timestamp: int, now: int)
    requires JoinsNamed(joins)
    ensures var rows := JoinRows(key, joins, version, cause, timestamp, now);
            && Replay(history + rows, key, initial) == ApplyFired(Replay(history, key, initial), joins)
            && CountWrites(history + rows, key) == CountWrites(history, key)
  {
    var rows := JoinRows(key, joins, version, cause, timestamp, now);
    forall i | 0 <= i < |rows| ensures EntersTarget(rows[i], key, joins[i]) {
    }
    ReplayTargets(history, key, initial, joins, rows);
  }

  ghost predicate JoinsNamed(joins: seq<JoinFired>) {
    forall i :: 0 <= i < |joins| ==> joins[i].targetRegion != ""
  }

  /** A join's row, as replay reads it. */
  ghost predicate EntersTarget(row: Row, key: Key, fired: JoinFired) {
    row.entity == key && row.identity.JoinId? && row.to == Plain(fired.targetState) &&
        RowTarget(row) == fired.targetRegion
  }

  lemma {:induction false} ReplayTargets(
    history: seq<Row>, key: Key, initial: StateMap, joins: seq<JoinFired>, rows: seq<Row>)
    requires |rows| == |joins|
    requires forall i {:trigger rows[i]} :: 0 <= i < |rows| ==> EntersTarget(rows[i], key, joins[i])
    ensures Replay(history + rows, key, initial) == ApplyFired(Replay(history, key, initial), joins)
    ensures CountWrites(history + rows, key) == CountWrites(history, key)
    decreases |rows|
  {
    if rows == [] {
      assert history + rows == history;
    } else {
      var n := |rows| - 1;
      ReplayTargets(history, key, initial, joins[..n], rows[..n]);
      assert history + rows == (history + rows[..n]) + [rows[n]];
      ReplayAppend(history + rows[..n], rows[n], key, initial);
    }
  }
}
