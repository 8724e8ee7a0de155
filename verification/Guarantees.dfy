/** What holds in every store that any sequence of requests reaches. */
module Guarantees {
  import opened Models
  import opened Engine
  import opened EngineSteps
  import opened Store
  import opened Lifecycle
  import opened Ledger
  import opened Tree
  import opened StartProofs
  import opened CascadeProofs
  import opened Requests
  import opened Delivery
  import opened Writes
  import opened Runs
  import opened Growth
  import opened Routing

  // ---------------------------------------------------------------- the tree

  /** A managed instance, ended ones included, is one step below its parent. */
  ghost predicate Placed(entities: map<Key, Entity>, c: Key) {
    c in entities && entities[c].instance.Some? ==>
      var i := entities[c].instance.value;
      ParentKey(i.link) in entities && i.above == entities[ParentKey(i.link)].Path()
  }

  lemma PlaceKept(before: map<Key, Entity>, after: map<Key, Entity>, c: Key)
    requires AllKept(before, after) && Placed(before, c) && c in before
    ensures Placed(after, c)
  {
    assert KeptAt(before, after, c);
    if before[c].instance.Some? {
      assert KeptAt(before, after, ParentKey(before[c].instance.value.link));
    }
  }

  /** A new entity is a root or active. */
  lemma NewIsPlaced(reg: Registry, run: seq<Served>, n: nat, c: Key)
    requires WellFormedRegistry(reg) && IsRun(reg, run) && n < |run|
    requires c in StoreAt(run, n + 1).entities && c !in StoreAt(run, n).entities
    ensures Placed(StoreAt(run, n + 1).entities, c)
  {
    ServedSettles(reg, run, n);
    ReachableConsistent(reg, run, n + 1);
    var db, db', request := StoreAt(run, n), StoreAt(run, n + 1), run[n].request;
    if !request.Create? {
      assert TouchedAt(db.entities, db'.entities, RootOf(request.key, db.entities[request.key]), c);
    }
    assert Up(reg, db'.entities, c);
  }

  lemma {:induction false} AlwaysPlaced(reg: Registry, run: seq<Served>, n: nat, c: Key)
    requires WellFormedRegistry(reg) && IsRun(reg, run) && n <= |run|
    ensures Placed(StoreAt(run, n).entities, c)
    decreases n
  {
    if n > 0 && c in StoreAt(run, n).entities {
      if c in StoreAt(run, n - 1).entities {
        AlwaysPlaced(reg, run, n - 1, c);
        RunGrows(reg, run, n - 1, n);
        PlaceKept(StoreAt(run, n - 1).entities, StoreAt(run, n).entities, c);
      } else {
        NewIsPlaced(reg, run, n - 1, c);
      }
    }
  }

  /** The child that the definition of `machine` gives to `state` of `region`, for the entity `id`. */
  ghost predicate GivesChild(reg: Registry, machine: string, id: string, region: string, state: string, child: Key) {
    machine in reg &&
    exists sub {:trigger DeclaresChild(reg[machine], region, state, sub)} ::
      DeclaresChild(reg[machine], region, state, sub) && child == Key(sub.machineId, id + "::sub::" + state)
  }

  lemma ManagedGivesChild(reg: Registry, key: Key, e: Entity, region: string, child: Key)
    requires WellFormedRegistry(reg) && region in e.states
    ensures GivesChild(reg, key.machine, key.id, region, e.states[region], child) <==>
              InManaged(reg, key, e, region) && child == ChildOf(reg, key, e, region)
  {
    if key.machine in reg {
      var m := reg[key.machine];
      if InManaged(reg, key, e, region) {
        ManagedSubIsDeclared(m, region, e.states[region], m.ManagedSub(region, e.states[region]).value);
      }
      forall sub | DeclaresChild(m, region, e.states[region], sub)
        ensures m.ManagedSub(region, e.states[region]) == Some(sub)
      {
        ManagedSubIsDeclared(m, region, e.states[region], sub);
      }
    }
  }

  /** A live entity is in a state to which its definition gives a managed child exactly when that child
      is active and names this entry. The path of every managed instance, ended or not, is its parent's
      path and its step, at most 8 long. */
  lemma TreeInvariant(reg: Registry, run: seq<Served>, n: nat, key: Key, region: string, child: Key)
    requires WellFormedRegistry(reg) && IsRun(reg, run) && n <= |run|
    ensures var entities := StoreAt(run, n).entities;
            key in entities && region in entities[key].states ==>
              var state, entry := entities[key].states[region], EntryOf(entities[key], region).entry;
              (entities[key].Live() && GivesChild(reg, key.machine, key.id, region, state, child)
               <==>
               && child in entities && entities[child].IsActiveChild()
               && entities[child].instance.value.link == Step(key.machine, key.id, region, state, entry))
    ensures var entities := StoreAt(run, n).entities;
            child in entities && entities[child].instance.Some? ==>
              var i := entities[child].instance.value;
              && i.depth == |i.Path()| <= 8
              && ParentKey(i.link) in entities && i.Path() == entities[ParentKey(i.link)].Path() + [i.link]
  {
    ReachableConsistent(reg, run, n);
    AlwaysPlaced(reg, run, n, child);
    var db := StoreAt(run, n);
    if key in db.entities && region in db.entities[key].states {
      ManagedGivesChild(reg, key, db.entities[key], region, child);
      assert DownAt(reg, db.entities, None, key, region);
    }
    if child in db.entities {
      assert Up(reg, db.entities, child);
      assert EntityOkAt(reg, db.entities, db.history, child);
    }
  }

  lemma StepsAreKeys(reg: Registry, run: seq<Served>, n: nat, key: Key, region: string)
    requires WellFormedRegistry(reg) && IsRun(reg, run) && n <= |run|
    requires var entities := StoreAt(run, n).entities;
             key in entities && entities[key].Live() && InManaged(reg, key, entities[key], region)
    ensures var entities := StoreAt(run, n).entities;
            var child := ChildOf(reg, key, entities[key], region);
            && child in entities && entities[child].instance.Some?
            && entities[child].instance.value.link == StepOf(key, entities[key], region)
  {
    var child := ChildOf(reg, key, StoreAt(run, n).entities[key], region);
    TreeInvariant(reg, run, n, key, region, child);
    ManagedGivesChild(reg, key, StoreAt(run, n).entities[key], region, child);
  }

  /** If at two moments of a run live entities are in managed states with the same child key, they are the
      same entity, in the same entry of the same state of the same region. So no managed state is ever
      entered again, and no two parents ever use one child key, although keys can collide. */
  lemma NeverReentered(
    reg: Registry, run: seq<Served>, n: nat, m: nat, key: Key, key': Key, region: string, region': string)
    requires WellFormedRegistry(reg) && IsRun(reg, run) && n <= m <= |run|
    requires var entities := StoreAt(run, n).entities;
             key in entities && entities[key].Live() && InManaged(reg, key, entities[key], region)
    requires var entities := StoreAt(run, m).entities;
             key' in entities && entities[key'].Live() && InManaged(reg, key', entities[key'], region')
    requires ChildOf(reg, key, StoreAt(run, n).entities[key], region)
          == ChildOf(reg, key', StoreAt(run, m).entities[key'], region')
    ensures key' == key
    ensures StepOf(key, StoreAt(run, n).entities[key], region) == StepOf(key', StoreAt(run, m).entities[key'], region')
  {
    StepsAreKeys(reg, run, n, key, region);
    StepsAreKeys(reg, run, m, key', region');
    RunGrows(reg, run, n, m);
    var child := ChildOf(reg, key, StoreAt(run, n).entities[key], region);
    assert KeptAt(StoreAt(run, n).entities, StoreAt(run, m).entities, child);
  }

  // ---------------------------------------------------------------- replay

  /** An entity's rows, in id order, rebuild its state map from its initial one, and its version is one
      more than the number of its rows that are not joins. */
  lemma HistoryReplay(reg: Registry, run: seq<Served>, n: nat, key: Key)
    requires WellFormedRegistry(reg) && IsRun(reg, run) && n <= |run|
    ensures var db := StoreAt(run, n);
            key in db.entities ==>
              && key.machine in reg
              && db.entities[key].states == Replay(db.history, key, reg[key.machine].InitialStates())
              && db.entities[key].version == 1 + CountWrites(db.history, key)
  {
    ReachableConsistent(reg, run, n);
    var db := StoreAt(run, n);
    if key in db.entities {
      assert EntityOkAt(reg, db.entities, db.history, key);
    }
  }

  /** Every row that is not a join starts from the state in which the rows before it left its region,
      and a cancellation from all of them. */
  lemma RowsStartFromReplay(reg: Registry, run: seq<Served>, n: nat, i: nat)
    requires WellFormedRegistry(reg) && IsRun(reg, run) && n <= |run|
    ensures var h := StoreAt(run, n).history;
            i < |h| && h[i].entity.machine in reg ==>
              var states := Replay(h[..i], h[i].entity, reg[h[i].entity.machine].InitialStates());
              && (h[i].identity.CancelId? ==> h[i].from == h[i].to == Encode(states))
              && (!h[i].identity.CancelId? && !h[i].identity.JoinId? ==>
                    RowTarget(h[i]) in states && h[i].from == Plain(states[RowTarget(h[i])]))
  {
    ReachableConsistent(reg, run, n);
    var h := StoreAt(run, n).history;
    if i < |h| {
      assert FromOk(reg, h, i);
    }
  }

  /** An entry made by a transition names the row of the entity that entered that region and state. */
  lemma EntriesNameTheirRow(reg: Registry, run: seq<Served>, n: nat, key: Key, region: string)
    requires WellFormedRegistry(reg) && IsRun(reg, run) && n <= |run|
    ensures var db := StoreAt(run, n);
            key in db.entities && region in db.entities[key].states ==>
              var entry := EntryOf(db.entities[key], region);
              entry.basis == ByTransition ==>
                entry.origin.Some? && EnteredBy(db.history, key, region, entry.state, entry.origin.value)
  {
    ReachableConsistent(reg, run, n);
    var db := StoreAt(run, n);
    if key in db.entities && region in db.entities[key].states {
      assert EntityOkAt(reg, db.entities, db.history, key);
      assert OriginOk(key, db.entities[key], db.history, region) && EntryCurrent(db.entities[key], region);
    }
  }

  // ---------------------------------------------------------------- identities

  /** No two history rows of one entity share an identity. Nor is a write ever refused for one:
      `OnlyStartsRefuse` leaves no conflict. */
  lemma IdentitiesUnique(reg: Registry, run: seq<Served>, n: nat, i: nat, j: nat)
    requires WellFormedRegistry(reg) && IsRun(reg, run) && n <= |run|
    ensures var h := StoreAt(run, n).history;
            i < |h| && j < |h| && h[i].entity == h[j].entity && h[i].identity == h[j].identity ==> i == j
  {
    ReachableConsistent(reg, run, n);
    var h := StoreAt(run, n).history;
    if i < j < |h| {
      assert Distinct(h, i, j);
    } else if j < i < |h| {
      assert Distinct(h, j, i);
    }
  }

  // ---------------------------------------------------------------- completion

  lemma {:induction false} NoWritesOnlyJoins(history: seq<Row>, key: Key, i: nat)
    requires CountWrites(history, key) == 0 && i < |history| && history[i].entity == key
    ensures history[i].identity.JoinId?
    decreases |history|
  {
    if i < |history| - 1 {
      NoWritesOnlyJoins(history[..|history| - 1], key, i);
    }
  }

  /** An entity at version 1 is still in its initial states. */
  lemma UnwrittenIsInitial(reg: Registry, db: Db, key: Key)
    requires Consistent(reg, db) && key in db.entities && db.entities[key].version == 1
    ensures key.machine in reg && db.entities[key].states == reg[key.machine].InitialStates()
  {
    assert EntityOkAt(reg, db.entities, db.history, key);
    forall i | 0 <= i < |db.history| ensures db.history[i].entity != key {
      assert RowOkAt(db.entities, db.history, i);
      if db.history[i].entity == key {
        NoWritesOnlyJoins(db.history, key, i);
      }
    }
    NoRowsNoReplay(db.history, key, reg[key.machine].InitialStates());
  }

  /** A managed instance as it begins: every region in its initial state since `clock`, with no context. */
  ghost predicate BegunInstance(reg: Registry, clock: int, k: Key, e: Entity) {
    && k.machine in reg && Begins(reg[k.machine], e.states) && e.context == map[] && e.version == 1
    && e.createdAt == e.updatedAt == clock
    && (forall r :: r in e.states ==> EntryOf(e, r) == RegionEntry(e.states[r], 1, clock, Basis.Created, None))
    && e.IsActiveChild() && e.instance.value.started == 1 && e.instance.value.ended.None?
  }

  /** Every instance that a commit starts, at whatever depth, begins so. */
  lemma NewInstancesBegin(reg: Registry, run: seq<Served>, n: nat, k: Key)
    requires WellFormedRegistry(reg) && IsRun(reg, run) && n < |run|
    requires k in StoreAt(run, n + 1).entities && k !in StoreAt(run, n).entities
    requires StoreAt(run, n + 1).entities[k].instance.Some?
    ensures BegunInstance(reg, run[n].request.clock, k, StoreAt(run, n + 1).entities[k])
  {
    ReachableConsistent(reg, run, n);
    ReachableConsistent(reg, run, n + 1);
    assert ServedAt(reg, run, n);
    var db, db', request := StoreAt(run, n), StoreAt(run, n + 1), run[n].request;
    ServeTxGrows(reg, db, request);
    ServedSettles(reg, run, n);
    assert BornAt(db.entities, db'.entities, request.clock, k);
    if !request.Create? {
      assert TouchedAt(db.entities, db'.entities, RootOf(request.key, db.entities[request.key]), k);
    }
    UnwrittenIsInitial(reg, db', k);
    InitialStatesBegin(reg[k.machine]);
    assert EntityOkAt(reg, db'.entities, db'.history, k);
    forall r | r in db'.entities[k].states
      ensures EntryOf(db'.entities[k], r) ==
                RegionEntry(db'.entities[k].states[r], 1, request.clock, Basis.Created, None)
    {
      assert UnwrittenAt(db'.entities[k], r);
    }
  }

  /** The child's initial states satisfy a completion rule of the reference. */
  predicate FinishedAtStart(reg: Registry, sub: SubMachine) {
    sub.machineId in reg && CompletionTarget(sub, reg[sub.machineId].InitialStates()).Some?
  }

  /** An active child whose states satisfy a completion rule of its parent link: its parent waits on a
      finished child. */
  ghost predicate Waits(reg: Registry, db: Db, child: Key) {
    && child in db.entities && db.entities[child].IsActiveChild()
    && SubOf(reg, db.entities[child].instance.value.link).Some?
    && CompletionTarget(SubOf(reg, db.entities[child].instance.value.link).value, db.entities[child].states).Some?
  }

  /** A parent waits on a finished child exactly when the child's initial states were already final and
      the child has not been written since its start. */
  lemma NoMissedCompletion(reg: Registry, run: seq<Served>, n: nat, child: Key)
    requires WellFormedRegistry(reg) && IsRun(reg, run) && n <= |run|
    ensures var db := StoreAt(run, n);
            child in db.entities && db.entities[child].IsActiveChild() ==>
              var e := db.entities[child];
              && SubOf(reg, e.instance.value.link).Some? && child.machine in reg
              && (Waits(reg, db, child) <==>
                    e.version == 1 && FinishedAtStart(reg, SubOf(reg, e.instance.value.link).value))
              && (e.version == 1 ==> e.states == reg[child.machine].InitialStates())
  {
    ReachableConsistent(reg, run, n);
    var db := StoreAt(run, n);
    if child in db.entities && db.entities[child].IsActiveChild() {
      assert EntityOkAt(reg, db.entities, db.history, child);
      if db.entities[child].version == 1 {
        UnwrittenIsInitial(reg, db, child);
      }
    }
  }

  /** From then on the parent waits exactly as long as nothing writes the child. */
  lemma WaitsUntilWritten(reg: Registry, run: seq<Served>, n: nat, m: nat, child: Key)
    requires WellFormedRegistry(reg) && IsRun(reg, run) && n <= m <= |run| && Waits(reg, StoreAt(run, n), child)
    ensures child in StoreAt(run, m).entities
    ensures Waits(reg, StoreAt(run, m), child) <==>
              StoreAt(run, m).entities[child] == StoreAt(run, n).entities[child]
  {
    NoMissedCompletion(reg, run, n, child);
    NoMissedCompletion(reg, run, m, child);
    RunGrows(reg, run, n, m);
    assert KeptAt(StoreAt(run, n).entities, StoreAt(run, m).entities, child);
  }

  /** No managed reference of a registered definition accepts its child's initial states. */
  ghost predicate NeverFinishedAtStart(reg: Registry) {
    forall id, region, state {:trigger reg[id].ManagedSub(region, state)} ::
      id in reg && reg[id].ManagedSub(region, state).Some? ==>
        !FinishedAtStart(reg, reg[id].ManagedSub(region, state).value)
  }

  /** With such definitions no parent ever waits on a finished child. */
  lemma NoneWaits(reg: Registry, run: seq<Served>, n: nat, child: Key)
    requires WellFormedRegistry(reg) && IsRun(reg, run) && n <= |run| && NeverFinishedAtStart(reg)
    ensures !Waits(reg, StoreAt(run, n), child)
  {
    NoMissedCompletion(reg, run, n, child);
  }

  /** An instance is waited on from the commit that starts it exactly when its reference accepts its
      initial states. */
  lemma StartedWaits(reg: Registry, run: seq<Served>, n: nat, child: Key)
    requires WellFormedRegistry(reg) && IsRun(reg, run) && n < |run|
    requires child !in StoreAt(run, n).entities && child in StoreAt(run, n + 1).entities
    requires StoreAt(run, n + 1).entities[child].instance.Some?
    ensures var db' := StoreAt(run, n + 1);
            var link := db'.entities[child].instance.value.link;
            && db'.entities[child].IsActiveChild() && SubOf(reg, link).Some?
            && (Waits(reg, db', child) <==> FinishedAtStart(reg, SubOf(reg, link).value))
  {
    ServedSettles(reg, run, n);
    NoMissedCompletion(reg, run, n + 1, child);
    var db, db', request := StoreAt(run, n), StoreAt(run, n + 1), run[n].request;
    if !request.Create? {
      assert TouchedAt(db.entities, db'.entities, RootOf(request.key, db.entities[request.key]), child);
    }
  }

  /** Row `n` is the managed `$sub_complete` of the child's entry instance and cites the child's end. */
  ghost predicate Citation(history: seq<Row>, n: nat, child: Key, i: Instance) {
    && n < |history|
    && history[n].entity == ParentKey(i.link)
    && history[n].identity == SubId(i.link.region, i.link.state, i.link.entry)
    && history[n].eventType == SubComplete
    && history[n].cause.SubCompleteCause?
    && history[n].cause.child == child
    && history[n].cause.parentEntry == i.link
    && i.ended == Some(history[n].cause.childEnd)
  }

  /** The parent left the child's compound state for where the definition sends it from the states in
      which the child ended. */
  ghost predicate AdvanceTrue(reg: Registry, row: Row, child: Key, e: Entity)
    requires e.instance.Some?
  {
    var link := e.instance.value.link;
    && link.machine in reg && row.from == Plain(link.state) && row.to.Plain?
    && row.cause.SubCompleteCause? && Decode(row.cause.childState) == e.states
    && exists sub {:trigger DeclaresChild(reg[link.machine], link.region, link.state, sub)} ::
         && DeclaresChild(reg[link.machine], link.region, link.state, sub)
         && child == Key(sub.machineId, link.entity + "::sub::" + link.state)
         && SendsTo(sub, e.states, row.to.state)
  }

  lemma CitationAdvances(reg: Registry, db: Db, child: Key, row: nat)
    requires WellFormedRegistry(reg) && Consistent(reg, db) && child in db.entities
    requires db.entities[child].instance.Some? && Citation(db.history, row, child, db.entities[child].instance.value)
    ensures AdvanceTrue(reg, db.history[row], child, db.entities[child])
  {
    var e := db.entities[child];
    var link := e.instance.value.link;
    assert CitationTrue(reg, db.entities, db.history, None, row);
    assert EntityOkAt(reg, db.entities, db.history, child);
    var sub := SubOf(reg, link).value;
    EncodeRoundTrip(e.states);
    ManagedSubIsDeclared(reg[link.machine], link.region, link.state, sub);
    CompletionSends(sub, e.states, db.history[row].to.state);
  }

  /** A managed child is completed if and only if its parent's history cites its end, and a row that does
      leads where the definition says. */
  lemma CompletionProvenance(reg: Registry, run: seq<Served>, n: nat, child: Key)
    requires WellFormedRegistry(reg) && IsRun(reg, run) && n <= |run|
    ensures var db := StoreAt(run, n);
            child in db.entities && db.entities[child].instance.Some? ==>
              var i := db.entities[child].instance.value;
              (i.status == Completed <==>
                exists row: nat {:trigger Citation(db.history, row, child, i)} :: Citation(db.history, row, child, i))
              && forall row: nat {:trigger Citation(db.history, row, child, i)} ::
                   Citation(db.history, row, child, i) ==> AdvanceTrue(reg, db.history[row], child, db.entities[child])
  {
    ReachableConsistent(reg, run, n);
    var db := StoreAt(run, n);
    if child in db.entities && db.entities[child].instance.Some? {
      var i := db.entities[child].instance.value;
      if i.status == Completed {
        assert CompletionCited(reg, db.entities, db.history, child);
        var row :| 0 <= row < |db.history| && CitesAt(reg, db.entities, db.history, child, row);
        assert RowOkAt(db.entities, db.history, row);
        assert Citation(db.history, row, child, i);
      }
      if row :| Citation(db.history, row, child, i) {
        assert CitationTrue(reg, db.entities, db.history, None, row);
      }
      forall row: nat | Citation(db.history, row, child, i)
        ensures AdvanceTrue(reg, db.history[row], child, db.entities[child])
      {
        CitationAdvances(reg, db, child, row);
      }
    }
  }

  /** The citation is later than the end it cites, which is a row of the child. */
  lemma CitationAfterEnd(reg: Registry, db: Db, child: Key, i: Instance, n: nat)
    requires Consistent(reg, db) && child in db.entities && db.entities[child].instance == Some(i)
    requires Citation(db.history, n, child, i)
    ensures 1 <= i.ended.value.row <= n
    ensures db.history[i.ended.value.row - 1].entity == child &&
            db.history[i.ended.value.row - 1].identity == i.ended.value.key
  {
    assert CitationTrue(reg, db.entities, db.history, None, n);
    assert EntityOkAt(reg, db.entities, db.history, child);
  }

  /** An entity that has ended was cited by no later row of its own. */
  lemma CitationBeforeEnd(reg: Registry, db: Db, n: nat)
    requires Consistent(reg, db) && n < |db.history| && !db.history[n].identity.JoinId?
    ensures var parent := db.history[n].entity;
            && parent in db.entities
            && (db.entities[parent].instance.Some? && db.entities[parent].instance.value.ended.Some? ==>
                  n + 1 <= db.entities[parent].instance.value.ended.value.row)
  {
    assert RowOkAt(db.entities, db.history, n);
    var parent := db.history[n].entity;
    assert EntityOkAt(reg, db.entities, db.history, parent);
    if db.entities[parent].instance.Some? && db.entities[parent].instance.value.ended.Some? {
      assert WrittenBy(db.history, parent, n, db.entities[parent].instance.value.ended.value.row);
    }
  }

  predicate SameIdentity(row: Row, other: Row) {
    row.entity == other.entity && row.identity == other.identity
  }

  /** The citation is the only row of its identity, is later than the cited end, and, if the parent
      has ended too, not later than the parent's own end: cited rows increase up to the root. */
  lemma CitationsAscend(reg: Registry, run: seq<Served>, n: nat, child: Key, row: nat, other: nat)
    requires WellFormedRegistry(reg) && IsRun(reg, run) && n <= |run|
    ensures var db := StoreAt(run, n);
            child in db.entities && db.entities[child].instance.Some? &&
                Citation(db.history, row, child, db.entities[child].instance.value) ==>
              var i := db.entities[child].instance.value;
              var parent := ParentKey(i.link);
              && 1 <= i.ended.value.row <= row
              && db.history[i.ended.value.row - 1].entity == child
              && db.history[i.ended.value.row - 1].identity == i.ended.value.key
              && parent in db.entities
              && (db.entities[parent].instance.Some? && db.entities[parent].instance.value.ended.Some? ==>
                    row + 1 <= db.entities[parent].instance.value.ended.value.row)
              && (other < |db.history| && SameIdentity(db.history[other], db.history[row]) ==> other == row)
  {
    ReachableConsistent(reg, run, n);
    var db := StoreAt(run, n);
    if child in db.entities && db.entities[child].instance.Some? &&
       Citation(db.history, row, child, db.entities[child].instance.value) {
      CitationAfterEnd(reg, db, child, db.entities[child].instance.value, row);
      CitationBeforeEnd(reg, db, row);
      IdentitiesUnique(reg, run, n, row, other);
    }
  }

  // ---------------------------------------------------------------- at-most-once events

  /** The entity has recorded this external event. */
  ghost predicate RecordedAt(history: seq<Row>, i: nat, key: Key, name: string, timestamp: int) {
    && i < |history|
    && history[i].entity == key
    && history[i].identity == EventId(EventNamed(name), timestamp)
  }

  /** Dedup's answer once the event is recorded: only that row can match. */
  lemma DedupAfterRecord(
    entities: map<Key, Entity>, history: seq<Row>, i: nat, key: Key, name: string, timestamp: int, params: Params)
    requires RowsOk(entities, history) && UniqueIdentities(history)
    requires RecordedAt(history, i, key, name, timestamp) && EventNamed(name).External?
    ensures Dedup(history, key, EventNamed(name), timestamp, params)
         == if history[i].params == params then Duplicate else Clash
  {
    assert RowOkAt(entities, history, i);
    assert SameEvent(history[i], key, EventNamed(name), timestamp);
    forall j | 0 <= j < |history| && j != i ensures !SameEvent(history[j], key, EventNamed(name), timestamp) {
      assert RowOkAt(entities, history, j);
      assert if j < i then Distinct(history, j, i) else Distinct(history, i, j);
    }
  }

  lemma Repeated(reg: Registry, db: Db, i: nat, key: Key, name: string, params: Params, timestamp: int, clock: int)
    requires Consistent(reg, db) && RecordedAt(db.history, i, key, name, timestamp) && EventNamed(name).External?
    ensures ServeTx(reg, db, Event(key, name, params, timestamp, clock))
         == if db.history[i].params == params then Ok(None) else Err(EventIdentityConflict)
  {
    assert RowOkAt(db.entities, db.history, i);
    assert EntityOkAt(reg, db.entities, db.history, key);
    DedupAfterRecord(db.entities, db.history, i, key, name, timestamp, params);
  }

  lemma RecordStays(reg: Registry, run: seq<Served>, n: nat, m: nat, i: nat)
    requires WellFormedRegistry(reg) && IsRun(reg, run) && n <= m <= |run| && i < |StoreAt(run, n).history|
    ensures i < |StoreAt(run, m).history| && StoreAt(run, m).history[i] == StoreAt(run, n).history[i]
  {
    RunGrows(reg, run, n, m);
    assert StoreAt(run, m).history[..|StoreAt(run, n).history|][i] == StoreAt(run, n).history[i];
  }

  /** Once recorded, an event submitted to the entity again, after any other requests, changes
      nothing: it is a duplicate if its params are equal and refused if they differ. */
  lemma EventsAtMostOnce(reg: Registry, run: seq<Served>, n: nat, m: nat, i: nat)
    requires WellFormedRegistry(reg) && IsRun(reg, run) && n <= m < |run|
    requires run[m].request.Event? && EventNamed(run[m].request.name).External?
    requires RecordedAt(StoreAt(run, n).history, i, run[m].request.key, run[m].request.name, run[m].request.timestamp)
    ensures StoreAt(run, m + 1) == StoreAt(run, m)
    ensures run[m].answer
         == if StoreAt(run, n).history[i].params == run[m].request.params then Ok(None) else Err(EventIdentityConflict)
  {
    ReachableConsistent(reg, run, m);
    RecordStays(reg, run, n, m, i);
    assert ServedAt(reg, run, m);
    var r := run[m].request;
    Repeated(reg, StoreAt(run, m), i, r.key, r.name, r.params, r.timestamp, r.clock);
  }

  lemma RepeatedAtTarget(
    reg: Registry, db: Db, i: nat, key: Key, start: Key, target: seq<TargetStep>, name: string, params: Params,
    timestamp: int, clock: int)
    requires Consistent(reg, db) && RecordedAt(db.history, i, key, name, timestamp) && EventNamed(name).External?
    requires start.machine in reg && ResolveHops(reg, start, target).Ok? &&
             HopsEnd(start, ResolveHops(reg, start, target).value) == key
    ensures ServeTx(reg, db, Targeted(start, target, name, params, timestamp, clock))
         == if db.history[i].params == params then Ok(None) else Err(EventIdentityConflict)
  {
    DedupAfterRecord(db.entities, db.history, i, key, name, timestamp, params);
  }

  /** Likewise for a targeted delivery that resolves to the entity. */
  lemma TargetedAtMostOnce(reg: Registry, run: seq<Served>, n: nat, m: nat, i: nat, key: Key)
    requires WellFormedRegistry(reg) && IsRun(reg, run) && n <= m < |run|
    requires run[m].request.Targeted? && EventNamed(run[m].request.name).External?
    requires var r := run[m].request;
             && r.key.machine in reg && ResolveHops(reg, r.key, r.target).Ok?
             && key == HopsEnd(r.key, ResolveHops(reg, r.key, r.target).value)
    requires RecordedAt(StoreAt(run, n).history, i, key, run[m].request.name, run[m].request.timestamp)
    ensures StoreAt(run, m + 1) == StoreAt(run, m)
    ensures run[m].answer
         == if StoreAt(run, n).history[i].params == run[m].request.params then Ok(None) else Err(EventIdentityConflict)
  {
    ReachableConsistent(reg, run, m);
    RecordStays(reg, run, n, m, i);
    assert ServedAt(reg, run, m);
    var r := run[m].request;
    RepeatedAtTarget(reg, StoreAt(run, m), i, key, r.key, r.target, r.name, r.params, r.timestamp, r.clock);
  }

  // ---------------------------------------------------------------- timers

  /** The time, kept within 64 bits. */
  ghost function Clamped(time: int): int {
    if time > 9223372036854775807 then 9223372036854775807
    else if time < -9223372036854775808 then -9223372036854775808
    else time
  }

  /** The timeout's row: its cause names the entry that timed out, when that began and when it was due. */
  ghost predicate RowOfTimeout(
    row: Row, key: Key, m: Machine, e: Entity, t: Transition, timeoutMs: int, now: int, clock: int)
    requires RegionOf(t) in e.states
  {
    var entry := EntryOf(e, RegionOf(t));
    row == Row(key, Plain(t.from), Plain(t.to), TimeoutEvent, e.context, if m.regions == [] then "" else RegionOf(t),
               now, clock, TimeoutId(RegionOf(t), entry.entry),
               TimeoutCause(RegionOf(t), entry.entry, entry.enteredAt, entry.basis, timeoutMs,
                            Clamped(entry.enteredAt + timeoutMs)))
  }

  /** The timer fired: the commit's first rows are the timeout's and its joins'; the entity moved along
      the transition and them, a flat one without joins; no context changed. */
  ghost predicate TimedOut(
    reg: Registry, db: Db, db': Db, key: Key, t: Transition, timeoutMs: int, now: int, clock: int,
    fired: seq<JoinFired>)
  {
    && key in db.entities && key in db'.entities && key.machine in reg && RegionOf(t) in db.entities[key].states
    && var m, e, e' := reg[key.machine], db.entities[key], db'.entities[key];
       && |db.history| < |db'.history|
       && RowOfTimeout(db'.history[|db.history|], key, m, e, t, timeoutMs, now, clock)
       && JoinsRecorded(db'.history, |db.history| + 1, key, e.version + 1, db'.history[|db.history|].identity, fired,
                        now, clock)
       && (if m.regions == [] then e'.states == e.states[RegionOf(t) := t.to] else MovedAlong(m, e, e', t, fired))
       && e'.version == e.version + 1 && e'.updatedAt == clock
       && ContextsKept(db.entities, db'.entities, {})
       && UsedEntry(e', RegionOf(t), EntryOf(e, RegionOf(t)).entry)
  }

  /** A timer that is ready fires, unless a start is refused. */
  lemma ReadyTimerFires(reg: Registry, db: Db, key: Key, t: Transition, timeoutMs: int, now: int, clock: int)
    returns (fired: seq<JoinFired>)
    requires WellFormedRegistry(reg) && Consistent(reg, db) && key.machine in reg
    requires key in db.entities && TimeoutReady(db.entities[key], t.Region(), t.from, timeoutMs, now)
    ensures var request := Timer(key, t, timeoutMs, now, clock);
            var r := ServeTx(reg, db, request);
            if r.Ok? then
              r.value.Some? && TimedOut(reg, db, Serve(reg, db, request), key, t, timeoutMs, now, clock, fired)
            else StartRefusal(r.error)
  {
    var request := Timer(key, t, timeoutMs, now, clock);
    var tx, e, spec := Begin(db), db.entities[key], TimeoutSpec(reg[key.machine], db.entities[key], t, timeoutMs, now);
    fired := spec.joins;
    TimeoutSpecReady(reg, tx, clock, key, t, timeoutMs, now);
    WholeWrite(reg, tx, TriggerOf(request), key, e, spec);
    var r := WriteEntity(reg, tx, TriggerOf(request), key, e, spec);
    if r.Ok? {
      assert RowOkAt(r.value.0.entities, r.value.0.history, |db.history|);
      WriteTimedOut(reg, db, r.value.0, key, t, timeoutMs, now, clock, spec);
    }
  }

  lemma WriteTimedOut(
    reg: Registry, db: Db, tx': Tx, key: Key, t: Transition, timeoutMs: int, now: int, clock: int, spec: WriteSpec)
    requires key in db.entities && key.machine in reg && t.Region() in db.entities[key].states
    requires spec == TimeoutSpec(reg[key.machine], db.entities[key], t, timeoutMs, now)
    requires WriteEnds(reg, Begin(db), tx', key, db.entities[key], spec, clock)
    requires WriteRecorded(Begin(db), tx', key, db.entities[key], spec, clock)
    requires UsedEntry(tx'.entities[key], t.Region(), EntryOf(db.entities[key], t.Region()).entry)
    ensures TimedOut(reg, db, Commit(tx'), key, t, timeoutMs, now, clock, spec.joins)
  {
    TimeoutRow(reg[key.machine], key, db.entities[key], t, timeoutMs, now, clock);
    TimeoutMoves(reg[key.machine], db.entities[key], tx'.entities[key], t, timeoutMs, now);
    NoneExcepted(db.entities, tx'.entities, key);
  }

  lemma TimeoutRow(m: Machine, key: Key, e: Entity, t: Transition, timeoutMs: int, now: int, clock: int)
    requires t.Region() in e.states
    ensures RowOfTimeout(MainRow(key, TimeoutSpec(m, e, t, timeoutMs, now), clock), key, m, e, t, timeoutMs, now, clock)
  {
  }

  lemma TimeoutMoves(m: Machine, e: Entity, e': Entity, t: Transition, timeoutMs: int, now: int)
    requires t.Region() in e.states && e'.states == TimeoutSpec(m, e, t, timeoutMs, now).newStates
    ensures if m.regions == [] then e'.states == e.states[RegionOf(t) := t.to]
            else MovedAlong(m, e, e', t, TimeoutSpec(m, e, t, timeoutMs, now).joins)
  {
    CascadeIsExplained(m.joins, e.states[RegionOf(t) := t.to], 10);
  }

  lemma NoneExcepted(entities: map<Key, Entity>, entities': map<Key, Entity>, key: Key)
    requires ContextsKept(entities, entities', {key})
    requires key in entities && key in entities' && entities'[key].context == entities[key].context
    ensures ContextsKept(entities, entities', {})
  {
    forall k | k in entities ensures ContextKept(entities, entities', k) {
      assert k != key ==> k !in {key};
    }
  }

  /** A timer step changes the store only by firing the region's current entry instance when it is
      due, and it uses that instance up. */
  lemma TimerFires(reg: Registry, run: seq<Served>, n: nat) returns (fired: seq<JoinFired>)
    requires WellFormedRegistry(reg) && IsRun(reg, run) && n < |run| && run[n].request.Timer?
    ensures var db, db', r := StoreAt(run, n), StoreAt(run, n + 1), run[n].request;
            db' != db ==>
              && TimedOut(reg, db, db', r.key, r.transition, r.timeoutMs, r.now, r.clock, fired)
              && var e, region := db.entities[r.key], RegionOf(r.transition);
                 e.Live() && e.states[region] == r.transition.from
                 && Clamped(EntryOf(e, region).enteredAt + r.timeoutMs) <= r.now
  {
    ReachableConsistent(reg, run, n);
    assert ServedAt(reg, run, n);
    var db, r := StoreAt(run, n), run[n].request;
    fired := [];
    if r.key.machine in reg && r.key in db.entities &&
       TimeoutReady(db.entities[r.key], r.transition.Region(), r.transition.from, r.timeoutMs, r.now)
    {
      fired := ReadyTimerFires(reg, db, r.key, r.transition, r.timeoutMs, r.now, r.clock);
    }
  }

  /** Whatever the interleaving, an entry instance has at most one `$timeout` row, at or after its due
      time. */
  lemma TimeoutsAtMostOnce(reg: Registry, run: seq<Served>, n: nat, i: nat, j: nat)
    requires WellFormedRegistry(reg) && IsRun(reg, run) && n <= |run|
    ensures var h := StoreAt(run, n).history;
            i < |h| && h[i].identity.TimeoutId? ==>
              && TimeoutCauseOk(h[i].cause, h[i].identity.region, h[i].identity.entry, h[i].timestamp)
              && (j < |h| && h[j].entity == h[i].entity && h[j].identity == h[i].identity ==> i == j)
  {
    ReachableConsistent(reg, run, n);
    IdentitiesUnique(reg, run, n, i, j);
    var db := StoreAt(run, n);
    if i < |db.history| {
      assert RowOkAt(db.entities, db.history, i);
    }
  }
}
