/** One write, one cancellation and one start each keep the ledger. */
module WriteProofs {
  import opened Models
  import opened Engine
  import opened Store
  import opened Lifecycle
  import opened Ledger

  /** The identity of a main row names the entry instance that the write leaves. */
  ghost predicate IdentityOk(e: Entity, spec: WriteSpec)
    requires spec.region in e.states
  {
    match spec.identity
    case EventId(eventType, timestamp) =>
      spec.eventType == eventType && spec.timestamp == timestamp && spec.cause.NoCause?
    case TimeoutId(region, entry) =>
      && spec.eventType == TimeoutEvent
      && region == spec.region && entry == EntryOf(e, region).entry
      && TimeoutCauseOk(spec.cause, region, entry, spec.timestamp)
    case SubId(region, state, entry) =>
      && spec.eventType == SubComplete
      && region == spec.region && state == e.states[region] && entry == EntryOf(e, region).entry
      && spec.cause.SubCompleteCause?
    case JoinId(_, _, _) => false
    case CancelId(_) => false
  }

  /** What every caller of the write path passes it. */
  ghost predicate SpecOk(reg: Registry, key: Key, e: Entity, spec: WriteSpec) {
    && key.machine in reg
    && spec.region in e.states && spec.from == e.states[spec.region]
    && JoinsWithin(spec.joins, e.states.Keys)
    && spec.newStates == ApplyFired(e.states[spec.region := spec.to], spec.joins)
    && spec.rowRegion == RowRegion(reg[key.machine], spec.region)
    && IdentityOk(e, spec)
  }

  function PendingAfter(key: Key, w: OwnWrite): Option<Key> {
    if w.completion.Some? then Some(key) else None
  }

  /** `Some` for an upward step: the child it follows. */
  function CitedBy(spec: WriteSpec): Option<Key> {
    if spec.cause.SubCompleteCause? then Some(spec.cause.child) else None
  }

  // ---------------------------------------------------------------- effect of one write

  function WrittenEntity(
    e: Entity, spec: WriteSpec, entries: StoredEntries, instance: Option<Instance>, now: int): Entity
  {
    Entity(spec.newStates, if spec.context.Some? then spec.context.value else e.context, entries.version,
           e.createdAt, now, Some(entries), instance)
  }

  function WriteRows(key: Key, e: Entity, spec: WriteSpec, now: int): seq<Row> {
    [MainRow(key, spec, now)] + JoinRows(key, spec.joins, e.version + 1, spec.identity, spec.timestamp, now)
  }

  function WriteEntered(e: Entity, spec: WriteSpec, row: nat): seq<Entered> {
    [Entered(spec.region, spec.to, RowRef(row, spec.identity))] + JoinEntries(spec.joins, e.version + 1, row + 1)
  }

  /** What one write of one entity does. */
  ghost predicate OwnEffect(reg: Registry, tx: Tx, now: int, key: Key, e: Entity, spec: WriteSpec, w: OwnWrite) {
    && w.row == RowRef(|tx.history| + 1, spec.identity)
    && w.entries == AdvanceEntries(EffectiveEntries(e), spec.newStates, WriteEntered(e, spec, w.row.row),
                                   e.version + 1, now)
    && CompletionOf(reg, e.instance, spec.newStates) == Ok(w.completion)
    && w.instance == EndInstance(e.instance, w.completion, w.row)
    && w.tx.history == tx.history + WriteRows(key, e, spec, now)
    && w.tx.events == tx.events
    && w.tx.entities == tx.entities[key := WrittenEntity(e, spec, w.entries, w.instance, now)]
    && (UniqueIdentities(tx.history) ==> UniqueIdentities(w.tx.history))
  }

  lemma MainThenJoins(history: seq<Row>, key: Key, e: Entity, spec: WriteSpec, now: int)
    ensures history + WriteRows(key, e, spec, now)
         == history + [MainRow(key, spec, now)] + JoinRows(key, spec.joins, e.version + 1, spec.identity,
                                                           spec.timestamp, now)
  {
  }

  lemma WriteRowsEffect(tx: Tx, now: int, key: Key, e: Entity, spec: WriteSpec)
    ensures var r := InsertWriteRows(tx, key, spec, e.version + 1, now);
            r.Ok? ==>
              && r.value.0 == tx.(history := tx.history + WriteRows(key, e, spec, now))
              && r.value.1 == WriteEntered(e, spec, |tx.history| + 1)
              && (UniqueIdentities(tx.history) ==> UniqueIdentities(r.value.0.history))
  {
    var main := MainRow(key, spec, now);
    if InsertHistory(tx, main).Ok? {
      InsertUnique(tx, main);
      var tx1 := InsertHistory(tx, main).value;
      InsertJoinRowsEffect(tx1, key, spec.joins, e.version + 1, spec.identity, spec.timestamp, now);
      MainThenJoins(tx.history, key, e, spec, now);
    }
  }

  lemma WriteOwnEffect(reg: Registry, tx: Tx, now: int, key: Key, e: Entity, spec: WriteSpec)
    requires Stored(tx, key, e)
    ensures var r := WriteOwn(reg, tx, now, key, e, spec);
            r.Ok? ==> OwnEffect(reg, tx, now, key, e, spec, r.value)
  {
    WriteRowsEffect(tx, now, key, e, spec);
  }

  // ---------------------------------------------------------------- entries of one write

  /** A region either kept its entry and state, or was entered by this write. */
  ghost predicate EntryKept(e: Entity, e': Entity, r: string)
    requires r in e.states && r in e'.states
  {
    EntryOf(e', r) == EntryOf(e, r) && e'.states[r] == e.states[r]
  }

  ghost predicate EntryAdvanced(e: Entity, e': Entity, r: string)
    requires r in e.states && r in e'.states
  {
    EntryOf(e', r).entry == e'.version == e.version + 1
  }

  lemma {:induction false} LastEnteredState(e: Entity, spec: WriteSpec, row: nat, n: nat, r: string)
    requires spec.region in e.states && JoinsWithin(spec.joins, e.states.Keys)
    requires n <= |spec.joins| && r in e.states
    ensures ApplyFired(e.states[spec.region := spec.to], spec.joins[..n]).Keys == e.states.Keys
    ensures var states := ApplyFired(e.states[spec.region := spec.to], spec.joins[..n]);
            match LastEntered(WriteEntered(e, spec, row)[..n + 1], r)
            case None => r != spec.region && states[r] == e.states[r]
            case Some(entered) => states[r] == entered.state
    decreases n
  {
    var all := WriteEntered(e, spec, row);
    if n == 0 {
      assert all[..1] == [all[0]];
      assert all[..1][..0] == [];
      assert spec.joins[..0] == [];
    } else {
      LastEnteredState(e, spec, row, n - 1, r);
      assert all[..n + 1][..n] == all[..n];
      assert spec.joins[..n][..n - 1] == spec.joins[..n - 1];
    }
  }

  lemma WrittenEntries(
    reg: Registry, key: Key, e: Entity, spec: WriteSpec, row: nat, instance: Option<Instance>, now: int)
    requires SpecOk(reg, key, e, spec) && DocumentCurrent(e) && e.version >= 1
    ensures var entries := AdvanceEntries(EffectiveEntries(e), spec.newStates, WriteEntered(e, spec, row),
                                          e.version + 1, now);
            var e' := WrittenEntity(e, spec, entries, instance, now);
            && e'.states.Keys == e.states.Keys
            && DocumentCurrent(e')
            && entries.regions == EffectiveEntries(e')
            && (forall r :: r in e.states ==> EntryKept(e, e', r) || EntryAdvanced(e, e', r))
            && EntryAdvanced(e, e', spec.region)
  {
    AdvancedRegions(e, spec, row, now);
    var entries := AdvanceEntries(EffectiveEntries(e), spec.newStates, WriteEntered(e, spec, row), e.version + 1, now);
    EntriesAdvance(e, WrittenEntity(e, spec, entries, instance, now), entries.regions, spec.region);
  }

  lemma AdvancedRegions(e: Entity, spec: WriteSpec, row: nat, now: int)
    requires spec.region in e.states && JoinsWithin(spec.joins, e.states.Keys)
    requires spec.newStates == ApplyFired(e.states[spec.region := spec.to], spec.joins)
    requires DocumentCurrent(e) && e.version >= 1
    ensures spec.newStates.Keys == e.states.Keys
    ensures var regions := AdvanceEntries(EffectiveEntries(e), spec.newStates, WriteEntered(e, spec, row),
                                          e.version + 1, now).regions;
            && regions.Keys == e.states.Keys
            && forall r {:trigger regions[r]} :: r in e.states ==>
              NextEntry(e, spec.newStates, spec.region, r, regions[r])
  {
    LastEnteredState(e, spec, row, 0, spec.region);
    ApplyFiredKeys(e.states[spec.region := spec.to], spec.joins);
    var previous, entered := EffectiveEntries(e), WriteEntered(e, spec, row);
    var regions := AdvanceEntries(previous, spec.newStates, entered, e.version + 1, now).regions;
    forall r | r in e.states ensures NextEntry(e, spec.newStates, spec.region, r, regions[r]) {
      WrittenEntry(e, spec, row, now, r);
    }
  }

  /** A region's next entry: a new instance, or the one it had. */
  ghost predicate NextEntry(e: Entity, states: StateMap, region: string, r: string, entry: RegionEntry) {
    && r in e.states && r in states
    && entry.state == states[r]
    && 1 <= entry.entry <= e.version + 1
    && ((entry == EntryOf(e, r) && states[r] == e.states[r] && r != region) || entry.entry == e.version + 1)
  }

  lemma EntriesAdvance(e: Entity, e': Entity, regions: map<string, RegionEntry>, region: string)
    requires e'.version == e.version + 1 && e'.states.Keys == e.states.Keys == regions.Keys && region in e.states
    requires e'.entries == Some(StoredEntries(e'.version, regions))
    requires forall r {:trigger regions[r]} :: r in e.states ==> NextEntry(e, e'.states, region, r, regions[r])
    ensures DocumentCurrent(e') && regions == EffectiveEntries(e')
    ensures forall r :: r in e.states ==> EntryKept(e, e', r) || EntryAdvanced(e, e', r)
    ensures EntryAdvanced(e, e', region)
  {
    forall r | r in e.states
      ensures EntryCurrent(e', r) && EntryOf(e', r) == regions[r]
      ensures EntryKept(e, e', r) || EntryAdvanced(e, e', r)
    {
    }
  }

  /** One region's entry after the write. */
  lemma WrittenEntry(e: Entity, spec: WriteSpec, row: nat, now: int, r: string)
    requires spec.region in e.states && JoinsWithin(spec.joins, e.states.Keys)
    requires spec.newStates == ApplyFired(e.states[spec.region := spec.to], spec.joins)
    requires DocumentCurrent(e) && e.version >= 1 && r in e.states
    ensures r in spec.newStates
    ensures NextEntry(e, spec.newStates, spec.region, r,
              AdvancedEntry(EffectiveEntries(e), r, spec.newStates[r], WriteEntered(e, spec, row), e.version + 1, now))
  {
    assert EntryCurrent(e, r);
    assert spec.joins[..|spec.joins|] == spec.joins;
    var entered := WriteEntered(e, spec, row);
    assert entered[..|spec.joins| + 1] == entered;
    LastEnteredState(e, spec, row, |spec.joins|, r);
  }

  // ---------------------------------------------------------------- the ledger after one write

  lemma ReplayMain(m: Machine, key: Key, states: StateMap, spec: WriteSpec, now: int)
    requires WellFormed(m) && states.Keys == m.RegionIds()
    requires spec.region in states && spec.rowRegion == RowRegion(m, spec.region) && !spec.identity.CancelId?
    ensures ApplyRow(states, MainRow(key, spec, now)) == states[spec.region := spec.to]
  {
    RegionsNamed(m);
  }

  lemma ReplayMainRow(reg: Registry, history: seq<Row>, key: Key, e: Entity, spec: WriteSpec, now: int)
    requires SpecOk(reg, key, e, spec) && WellFormedRegistry(reg)
    requires e.states.Keys == reg[key.machine].RegionIds()
    requires e.states == Replay(history, key, reg[key.machine].InitialStates())
    ensures var h := history + [MainRow(key, spec, now)];
            && Replay(h, key, reg[key.machine].InitialStates()) == e.states[spec.region := spec.to]
            && CountWrites(h, key) == CountWrites(history, key) + 1
  {
    ReplayMain(reg[key.machine], key, e.states, spec, now);
    ReplayAppend(history, MainRow(key, spec, now), key, reg[key.machine].InitialStates());
  }

  lemma ReplayWrite(reg: Registry, history: seq<Row>, key: Key, e: Entity, spec: WriteSpec, now: int)
    requires SpecOk(reg, key, e, spec) && WellFormedRegistry(reg)
    requires e.states.Keys == reg[key.machine].RegionIds()
    requires e.states == Replay(history, key, reg[key.machine].InitialStates())
    ensures Replay(history + WriteRows(key, e, spec, now), key, reg[key.machine].InitialStates()) == spec.newStates
    ensures CountWrites(history + WriteRows(key, e, spec, now), key) == CountWrites(history, key) + 1
  {
    RegionsNamed(reg[key.machine]);
    ReplayMainRow(reg, history, key, e, spec, now);
    MainThenJoins(history, key, e, spec, now);
    ReplayJoins(history + [MainRow(key, spec, now)], key, reg[key.machine].InitialStates(), spec.joins, e.version + 1,
                spec.identity, spec.timestamp, now);
  }

  lemma RegionsNamed(m: Machine)
    requires WellFormed(m)
    ensures forall r :: r in m.RegionIds() ==> r != ""
    ensures !m.IsParallel() ==> m.RegionIds() == {DEFAULT_REGION}
  {
  }

  lemma EndRecordedLater(key: Key, e: Entity, history: seq<Row>, rows: seq<Row>)
    requires EndRecorded(key, e, history)
    requires forall i :: 0 <= i < |rows| ==> rows[i].entity != key
    ensures EndRecorded(key, e, history + rows)
  {
    if e.instance.Some? && e.instance.value.ended.Some? {
      var end := e.instance.value.ended.value.row;
      forall i | 0 <= i < |history + rows| ensures WrittenBy(history + rows, key, i, end) {
        if i < |history| {
          assert WrittenBy(history, key, i, end) && (history + rows)[i] == history[i];
        } else {
          assert (history + rows)[i] == rows[i - |history|];
        }
      }
    }
  }

  lemma OriginsLater(key: Key, e: Entity, history: seq<Row>, rows: seq<Row>)
    requires OriginsOk(key, e, history)
    ensures OriginsOk(key, e, history + rows)
  {
    forall r | r in e.states ensures OriginOk(key, e, history + rows, r) {
      assert OriginOk(key, e, history, r);
    }
  }

  lemma {:induction false} LastEnteredAt(entered: seq<Entered>, region: string) returns (i: nat)
    requires LastEntered(entered, region).Some?
    ensures i < |entered| && entered[i] == LastEntered(entered, region).value && entered[i].region == region
    decreases |entered|
  {
    i := |entered| - 1;
    if entered[i].region != region {
      i := LastEnteredAt(entered[..i], region);
    }
  }

  /** What a write enters, its rows enter. */
  lemma EnteredByRows(m: Machine, history: seq<Row>, key: Key, e: Entity, spec: WriteSpec, now: int, i: nat)
    requires WellFormed(m) && e.states.Keys == m.RegionIds()
    requires spec.region in e.states && spec.rowRegion == RowRegion(m, spec.region) &&
             JoinsWithin(spec.joins, e.states.Keys)
    requires i <= |spec.joins|
    ensures var entered := WriteEntered(e, spec, |history| + 1)[i];
            EnteredBy(history + WriteRows(key, e, spec, now), key, entered.region, entered.state, entered.origin)
  {
    RegionsNamed(m);
    var rows := WriteRows(key, e, spec, now);
    assert (history + rows)[|history| + i] == rows[i];
  }

  lemma WrittenOrigin(
    reg: Registry, history: seq<Row>, key: Key, e: Entity, e': Entity, spec: WriteSpec, now: int, r: string)
    requires WellFormedRegistry(reg) && SpecOk(reg, key, e, spec) && EntityOk(reg, key, e)
    requires OriginsOk(key, e, history) && r in e.states
    requires e'.states == spec.newStates && r in e'.states && DocumentCurrent(e')
    requires e'.entries.value == AdvanceEntries(EffectiveEntries(e), spec.newStates,
                                                WriteEntered(e, spec, |history| + 1), e.version + 1, now)
    ensures OriginOk(key, e', history + WriteRows(key, e, spec, now), r)
  {
    var entered := WriteEntered(e, spec, |history| + 1);
    assert EntryCurrent(e', r);
    assert spec.joins[..|spec.joins|] == spec.joins && entered[..|spec.joins| + 1] == entered;
    LastEnteredState(e, spec, |history| + 1, |spec.joins|, r);
    if LastEntered(entered, r).Some? {
      var i := LastEnteredAt(entered, r);
      EnteredByRows(reg[key.machine], history, key, e, spec, now, i);
    } else {
      assert OriginOk(key, e, history, r);
      OriginStays(key, e, e', history, WriteRows(key, e, spec, now), r);
    }
  }

  lemma OriginStays(key: Key, e: Entity, e': Entity, history: seq<Row>, rows: seq<Row>, r: string)
    requires OriginOk(key, e, history, r) && r in e'.states && e'.states[r] == e.states[r]
    requires EntryOf(e', r) == EntryOf(e, r)
    ensures OriginOk(key, e', history + rows, r)
  {
    assert forall i :: 0 <= i < |history| ==> (history + rows)[i] == history[i];
  }

  lemma WrittenOrigins(
    reg: Registry, history: seq<Row>, key: Key, e: Entity, e': Entity, spec: WriteSpec, now: int)
    requires WellFormedRegistry(reg) && SpecOk(reg, key, e, spec) && EntityOk(reg, key, e)
    requires OriginsOk(key, e, history) && e'.states == spec.newStates && e'.states.Keys == e.states.Keys &&
             DocumentCurrent(e')
    requires e'.entries.value == AdvanceEntries(EffectiveEntries(e), spec.newStates,
                                                WriteEntered(e, spec, |history| + 1), e.version + 1, now)
    ensures OriginsOk(key, e', history + WriteRows(key, e, spec, now))
  {
    forall r | r in e'.states ensures OriginOk(key, e', history + WriteRows(key, e, spec, now), r) {
      WrittenOrigin(reg, history, key, e, e', spec, now, r);
    }
  }

  /** The first appended row is the entity's last, apart from joins. */
  lemma EndsNow(key: Key, e: Entity, history: seq<Row>, rows: seq<Row>)
    requires rows != [] && rows[0].entity == key
    requires forall i :: 0 < i < |rows| ==> rows[i].identity.JoinId?
    requires e.instance.Some? && e.instance.value.ended == Some(RowRef(|history| + 1, rows[0].identity))
    requires e.instance.value.status == Cancelled <==> rows[0].identity.CancelId?
    ensures EndRecorded(key, e, history + rows)
  {
    var h := history + rows;
    assert h[|history|] == rows[0];
    var end := |history| + 1;
    forall i | 0 <= i < |h| ensures WrittenBy(h, key, i, end) {
      if i > |history| {
        assert h[i] == rows[i - |history|];
      }
    }
  }

  /** Rows of `key` leave what the ledger says about any other entity alone. */
  lemma OtherOk(
    reg: Registry, entities: map<Key, Entity>, entities': map<Key, Entity>, history: seq<Row>, rows: seq<Row>,
    key: Key, k: Key)
    requires EntityOkAt(reg, entities, history, k) && RowsOf(rows, key)
    requires k != key && k in entities' && entities'[k] == entities[k]
    ensures EntityOkAt(reg, entities', history + rows, k)
  {
    ReplayOther(history, rows, key, k, reg[k.machine].InitialStates());
    EndRecordedLater(k, entities[k], history, rows);
    OriginsLater(k, entities[k], history, rows);
  }

  /** A row about `e` stays true of `e'` when entries and versions only grow and `e` is live. */
  lemma RowOkAfterWrite(row: Row, e: Entity, e': Entity)
    requires RowOk(row, e) && e.Live()
    requires e'.states.Keys == e.states.Keys && e'.version == e.version + 1
    requires DocumentCurrent(e)
    requires forall r :: r in e.states ==> EntryKept(e, e', r) || EntryAdvanced(e, e', r)
    ensures RowOk(row, e')
  {
    match row.identity
    case TimeoutId(region, entry) =>
      assert EntryCurrent(e, region) && (EntryKept(e, e', region) || EntryAdvanced(e, e', region));
    case SubId(region, _, entry) =>
      assert EntryCurrent(e, region) && (EntryKept(e, e', region) || EntryAdvanced(e, e', region));
    case _ =>
  }

  lemma WrittenRowsOk(
    reg: Registry, entities: map<Key, Entity>, history: seq<Row>, key: Key, e: Entity, e': Entity, spec: WriteSpec,
    now: int)
    requires RowsOk(entities, history) && key in entities && entities[key] == e && e.Live()
    requires SpecOk(reg, key, e, spec) && DocumentCurrent(e)
    requires e'.states.Keys == e.states.Keys && e'.version == e.version + 1
    requires forall r :: r in e.states ==> EntryKept(e, e', r) || EntryAdvanced(e, e', r)
    requires EntryAdvanced(e, e', spec.region)
    ensures RowsOk(entities[key := e'], history + WriteRows(key, e, spec, now))
  {
    var rows := WriteRows(key, e, spec, now);
    var entities' := entities[key := e'];
    var h := history + rows;
    assert EntryCurrent(e, spec.region);
    forall i | 0 <= i < |h|
      ensures RowOkAt(entities', h, i)
    {
      if i < |history| {
        assert RowOkAt(entities, history, i) && h[i] == history[i];
        if h[i].entity == key {
          RowOkAfterWrite(h[i], e, e');
        }
      } else {
        assert h[i] == rows[i - |history|];
        NewRowOk(reg, key, e, e', spec, now, i - |history|);
      }
    }
  }

  lemma NewRowOk(reg: Registry, key: Key, e: Entity, e': Entity, spec: WriteSpec, now: int, i: nat)
    requires SpecOk(reg, key, e, spec) && e.version >= 1 && e'.version == e.version + 1 && i <= |spec.joins|
    requires e'.states.Keys == e.states.Keys && EntryAdvanced(e, e', spec.region) && EntryCurrent(e, spec.region)
    ensures WriteRows(key, e, spec, now)[i].entity == key && RowOk(WriteRows(key, e, spec, now)[i], e')
  {
  }

  lemma WrittenInstance(
    reg: Registry, key: Key, e: Entity, e': Entity, spec: WriteSpec, completion: Option<string>, row: RowRef)
    requires EntityOk(reg, key, e)
    requires CompletionOf(reg, e.instance, spec.newStates) == Ok(completion)
    requires e'.states == spec.newStates && e'.version == e.version + 1
    requires e'.instance == EndInstance(e.instance, completion, row)
    ensures InstanceOk(reg, key, e') && NotMissed(reg, e')
    ensures completion.Some? <==> IsCompleted(e')
  {
  }

  /** Replacing one entity, with rows of its own that replay to its new states. */
  lemma UpdatedEntitiesOk(
    reg: Registry, entities: map<Key, Entity>, history: seq<Row>, rows: seq<Row>, key: Key, e': Entity)
    requires EntitiesOk(reg, entities, history) && RowsOf(rows, key)
    requires EntityOk(reg, key, e') && Replayed(reg, key, e', history + rows)
    ensures EntitiesOk(reg, entities[key := e'], history + rows)
  {
    var entities' := entities[key := e'];
    forall k | k in entities' ensures EntityOkAt(reg, entities', history + rows, k) {
      if k != key {
        assert EntityOkAt(reg, entities, history, k);
        OtherOk(reg, entities, entities', history, rows, key, k);
      }
    }
  }

  /** The rows of one update: only the first may cite a completion. */
  ghost predicate CitesOnlyFirst(rows: seq<Row>, cited: Option<Key>) {
    && (forall i :: 0 <= i < |rows| && rows[i].cause.SubCompleteCause? ==> i == 0 && cited == Some(rows[0].cause.child))
    && (cited.Some? ==> 0 < |rows|)
  }

  lemma UpdatedCitations(
    reg: Registry, entities: map<Key, Entity>, history: seq<Row>, rows: seq<Row>, key: Key, e': Entity,
    cited: Option<Key>, pending: Option<Key>)
    requires key in entities && !IsCompleted(entities[key])
    requires CompletionsCited(reg, entities, history, cited) && CitationsTrue(reg, entities, history, cited)
    requires CitesOnlyFirst(rows, cited)
    requires cited.Some? ==>
               && cited.value in entities && IsCompleted(entities[cited.value])
               && Cites(reg, rows[0], cited.value, entities[cited.value])
               && EndRecorded(cited.value, entities[cited.value], history)
    requires pending == if IsCompleted(e') then Some(key) else None
    ensures CompletionsCited(reg, entities[key := e'], history + rows, pending)
    ensures CitationsTrue(reg, entities[key := e'], history + rows, pending)
  {
    var entities' := entities[key := e'];
    var h := history + rows;
    forall k | k in entities' && IsCompleted(entities'[k]) && pending != Some(k)
      ensures CompletionCited(reg, entities', h, k)
    {
      if cited == Some(k) {
        assert CitesAt(reg, entities', h, k, |history|);
      } else {
        assert CompletionCited(reg, entities, history, k);
        var i :| 0 <= i < |history| && CitesAt(reg, entities, history, k, i);
        assert CitesAt(reg, entities', h, k, i);
      }
    }
    forall i | 0 <= i < |h| ensures CitationTrue(reg, entities', h, pending, i) {
      if i < |history| {
        assert CitationTrue(reg, entities, history, cited, i) && h[i] == history[i];
      } else {
        assert h[i] == rows[i - |history|];
      }
    }
  }

  /** Updates that complete nothing, and rows that cite nothing. */
  lemma KeptCitations(
    reg: Registry, entities: map<Key, Entity>, entities': map<Key, Entity>, history: seq<Row>, rows: seq<Row>,
    pending: Option<Key>)
    requires CompletionsCited(reg, entities, history, pending) && CitationsTrue(reg, entities, history, pending)
    requires forall i :: 0 <= i < |rows| ==> !rows[i].cause.SubCompleteCause?
    requires forall k :: k in entities ==> k in entities' && (IsCompleted(entities[k]) ==> entities'[k] == entities[k])
    requires forall k :: k in entities' && IsCompleted(entities'[k]) ==> k in entities && IsCompleted(entities[k])
    ensures CompletionsCited(reg, entities', history + rows, pending)
    ensures CitationsTrue(reg, entities', history + rows, pending)
  {
    var h := history + rows;
    forall k | k in entities' && IsCompleted(entities'[k]) && pending != Some(k)
      ensures CompletionCited(reg, entities', h, k)
    {
      assert CompletionCited(reg, entities, history, k);
      var i :| 0 <= i < |history| && CitesAt(reg, entities, history, k, i);
      assert CitesAt(reg, entities', h, k, i);
    }
    forall i | 0 <= i < |h| ensures CitationTrue(reg, entities', h, pending, i) {
      if i < |history| {
        assert CitationTrue(reg, entities, history, pending, i) && h[i] == history[i];
      } else {
        assert h[i] == rows[i - |history|];
      }
    }
  }

  lemma WriteRowsCite(key: Key, e: Entity, spec: WriteSpec, now: int)
    ensures RowsOf(WriteRows(key, e, spec, now), key)
    ensures CitesOnlyFirst(WriteRows(key, e, spec, now), CitedBy(spec))
    ensures WriteRows(key, e, spec, now)[0] == MainRow(key, spec, now)
    ensures forall i :: 0 < i < |WriteRows(key, e, spec, now)| ==> WriteRows(key, e, spec, now)[i].identity.JoinId?
  {
  }

  /** One write keeps the ledger; the entity it completed still has to be cited. */
  lemma WriteOwnLedger(reg: Registry, tx: Tx, now: int, key: Key, e: Entity, spec: WriteSpec, w: OwnWrite)
    requires WellFormedRegistry(reg) && LedgerOk(reg, tx.entities, tx.history, CitedBy(spec))
    requires Stored(tx, key, e) && SpecOk(reg, key, e, spec)
    requires CitedBy(spec).Some? ==>
               Cites(reg, MainRow(key, spec, now), CitedBy(spec).value, tx.entities[CitedBy(spec).value])
    requires OwnEffect(reg, tx, now, key, e, spec, w)
    ensures LedgerOk(reg, w.tx.entities, w.tx.history, PendingAfter(key, w))
  {
    WrittenLedger(reg, tx.entities, tx.history, now, key, e, spec, w.row, w.entries, w.completion, w.instance);
  }

  /** What a write did, over plain values. */
  ghost predicate IsOwnWrite(
    reg: Registry, entities: map<Key, Entity>, history: seq<Row>, now: int, key: Key, e: Entity, spec: WriteSpec,
    row: RowRef, entries: StoredEntries, completion: Option<string>, instance: Option<Instance>)
  {
    && WellFormedRegistry(reg) && LedgerOk(reg, entities, history, CitedBy(spec))
    && key in entities && entities[key] == e && SpecOk(reg, key, e, spec)
    && (CitedBy(spec).Some? ==> Cites(reg, MainRow(key, spec, now), CitedBy(spec).value, entities[CitedBy(spec).value]))
    && row == RowRef(|history| + 1, spec.identity)
    && entries == AdvanceEntries(EffectiveEntries(e), spec.newStates, WriteEntered(e, spec, row.row), e.version + 1,
                                 now)
    && CompletionOf(reg, e.instance, spec.newStates) == Ok(completion)
    && instance == EndInstance(e.instance, completion, row)
  }

  /** The written entity itself. */
  lemma WrittenEntityOk(
    reg: Registry, entities: map<Key, Entity>, history: seq<Row>, now: int, key: Key, e: Entity, spec: WriteSpec,
    row: RowRef, entries: StoredEntries, completion: Option<string>, instance: Option<Instance>)
    requires IsOwnWrite(reg, entities, history, now, key, e, spec, row, entries, completion, instance)
    ensures var e' := WrittenEntity(e, spec, entries, instance, now);
            && EntityOk(reg, key, e') && Replayed(reg, key, e', history + WriteRows(key, e, spec, now))
            && (completion.Some? <==> IsCompleted(e'))
  {
    var e' := WrittenEntity(e, spec, entries, instance, now);
    assert EntityOkAt(reg, entities, history, key);
    WriteRowsCite(key, e, spec, now);
    WrittenEntries(reg, key, e, spec, row.row, instance, now);
    WrittenInstance(reg, key, e, e', spec, completion, row);
    ReplayWrite(reg, history, key, e, spec, now);
    WrittenOrigins(reg, history, key, e, e', spec, now);
    if completion.Some? {
      EndsNow(key, e', history, WriteRows(key, e, spec, now));
    }
  }

  lemma WrittenFroms(reg: Registry, history: seq<Row>, key: Key, e: Entity, spec: WriteSpec, now: int)
    requires WellFormedRegistry(reg) && SpecOk(reg, key, e, spec) && FromsOk(reg, history)
    requires e.states == Replay(history, key, reg[key.machine].InitialStates()) &&
             e.states.Keys == reg[key.machine].RegionIds()
    ensures FromsOk(reg, history + WriteRows(key, e, spec, now))
  {
    var rows := WriteRows(key, e, spec, now);
    var h := history + [rows[0]];
    WriteRowsCite(key, e, spec, now);
    RegionsNamed(reg[key.machine]);
    assert h[..|history|] == history && h[|history|] == rows[0];
    FromsAppend(reg, history, rows);
  }

  lemma WrittenLedger(
    reg: Registry, entities: map<Key, Entity>, history: seq<Row>, now: int, key: Key, e: Entity, spec: WriteSpec,
    row: RowRef, entries: StoredEntries, completion: Option<string>, instance: Option<Instance>)
    requires IsOwnWrite(reg, entities, history, now, key, e, spec, row, entries, completion, instance)
    requires UniqueIdentities(history + WriteRows(key, e, spec, now))
    ensures LedgerOk(reg, entities[key := WrittenEntity(e, spec, entries, instance, now)],
                     history + WriteRows(key, e, spec, now),
                     if completion.Some? then Some(key) else None)
  {
    var e' := WrittenEntity(e, spec, entries, instance, now);
    var rows := WriteRows(key, e, spec, now);
    assert EntityOkAt(reg, entities, history, key);
    WriteRowsCite(key, e, spec, now);
    WrittenEntityOk(reg, entities, history, now, key, e, spec, row, entries, completion, instance);
    UpdatedEntitiesOk(reg, entities, history, rows, key, e');
    WrittenEntries(reg, key, e, spec, row.row, instance, now);
    WrittenRowsOk(reg, entities, history, key, e, e', spec, now);
    WrittenCitations(reg, entities, history, rows, key, e', CitedBy(spec));
    WrittenFroms(reg, history, key, e, spec, now);
  }

  lemma WrittenCitations(
    reg: Registry, entities: map<Key, Entity>, history: seq<Row>, rows: seq<Row>, key: Key, e': Entity,
    cited: Option<Key>)
    requires LedgerOk(reg, entities, history, cited)
    requires key in entities && !IsCompleted(entities[key]) && CitesOnlyFirst(rows, cited)
    requires cited.Some? ==> Cites(reg, rows[0], cited.value, entities[cited.value])
    ensures var pending := if IsCompleted(e') then Some(key) else None;
            && CompletionsCited(reg, entities[key := e'], history + rows, pending)
            && CitationsTrue(reg, entities[key := e'], history + rows, pending)
  {
    if cited.Some? {
      assert EntityOkAt(reg, entities, history, cited.value);
    }
    UpdatedCitations(reg, entities, history, rows, key, e', cited, if IsCompleted(e') then Some(key) else None);
  }
}
