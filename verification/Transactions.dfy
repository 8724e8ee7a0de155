/** The write path over mutable state: a transaction object that inserts and updates rows and records
    lifecycle events. Each method computes what its function specifies. On an error the
    caller drops the transaction, so only the error is specified then. */
module Transactions {
  import opened Names
  import opened Models
  import opened Engine
  import opened EngineSteps
  import opened Store
  import opened Lifecycle
  import opened Requests

  class Transaction {
    const reg: Registry
    const trigger: Trigger
    var entities: map<Key, Entity>
    var history: seq<Row>
    var events: seq<InstanceEvent>

    constructor (reg: Registry, db: Db, trigger: Trigger)
      ensures this.reg == reg && this.trigger == trigger && State() == Begin(db)
    {
      this.reg := reg;
      this.trigger := trigger;
      entities := db.entities;
      history := db.history;
      events := [];
    }

    ghost function State(): Tx
      reads this
    {
      Tx(entities, history, events)
    }

    // -------------------------------------------------------------- rows

    /** Appends `row`; its id is the new length of the history. */
    method InsertHistory(row: Row) returns (r: Result<nat>)
      modifies this`history
      ensures match Store.InsertHistory(old(State()), row)
              case Ok(tx) => State() == tx && r == Ok(|tx.history|)
              case Err(error) => r == Err(error)
    {
      if exists i :: 0 <= i < |history| && history[i].entity == row.entity && history[i].identity == row.identity {
        return Err(Conflict);
      }
      history := history + [row];
      return Ok(|history|);
    }

    /** Appends one row for each join and collects the entries they make. */
    method InsertJoinRows(
      key: Key, joins: seq<JoinFired>, version: int, cause: Identity,
      timestamp: int) returns (r: Result<seq<Entered>>)
      modifies this`history
      ensures match Store.InsertJoinRows(old(State()), key, joins, 0, version, cause, timestamp, trigger.now)
              case Ok((tx, entered)) => State() == tx && r == Ok(entered)
              case Err(error) => r == Err(error)
    {
      ghost var spec := Store.InsertJoinRows(State(), key, joins, 0, version, cause, timestamp, trigger.now);
      var entered: seq<Entered> := [];
      var step := 0;
      AfterNothing(spec);
      while step < |joins|
        invariant 0 <= step <= |joins|
        invariant entities == old(entities) && events == old(events)
        invariant spec == After(entered,
                                Store.InsertJoinRows(State(), key, joins, step, version, cause, timestamp, trigger.now))
      {
        var row := JoinRow(key, joins[step], version, step, cause, timestamp, trigger.now);
        var id := InsertHistory(row);
        if id.Err? {
          return Err(id.error);
        }
        var e := Entered(joins[step].targetRegion, joins[step].targetState, RowRef(id.value, row.identity));
        AfterOneMore(entered, e,
                     Store.InsertJoinRows(State(), key, joins, step + 1, version, cause, timestamp, trigger.now));
        entered := entered + [e];
        step := step + 1;
      }
      assert entered + [] == entered;
      return Ok(entered);
    }

    /** Replaces the entity if nothing has written it since it was read. */
    method UpdateEntity(
      key: Key, states: StateMap, context: Option<Context>, entries: StoredEntries, expectedVersion: int,
      instance: Option<Instance>)
      returns (r: Result<()>)
      modifies this`entities
      ensures match Store.UpdateEntity(old(State()), key, states, context, entries, expectedVersion, trigger.now,
                                       instance)
              case Ok(tx) => State() == tx && r == Ok(())
              case Err(error) => r == Err(error)
    {
      if key !in entities || entities[key].version != expectedVersion {
        return Err(Conflict);
      }
      var e := entities[key];
      var kept := if context.Some? then context.value else e.context;
      var updated := Entity(states, kept, entries.version, e.createdAt, trigger.now, Some(entries), instance);
      entities := entities[key := updated];
      return Ok(());
    }

    // -------------------------------------------------------------- cancel

    /** Ends `key` and all that is live below it, leaves first. */
    method CancelSubtree(key: Key, reason: CancelReason, cancelledBy: RowRef) returns (r: Result<()>)
      modifies this
      ensures match Lifecycle.CancelSubtree(reg, old(State()), trigger, key, reason, cancelledBy)
              case Ok(tx) => State() == tx && r == Ok(())
              case Err(error) => r == Err(error)
      decreases KeysFrom(entities.Keys, key.id)
    {
      if key !in entities || !entities[key].IsActiveChild() {
        return Ok(());
      }
      var child := entities[key];
      var machine :- LoadMachine(reg, key.machine);
      var regions := SortedKeys(child.states.Keys);
      ghost var start := State();
      var i := 0;
      assert regions[0..] == regions;
      while i < |regions|
        invariant 0 <= i <= |regions|
        invariant entities.Keys == start.entities.Keys
        invariant CancelChildren(reg, start, trigger, key, machine, child.states, regions, cancelledBy)
               == CancelChildren(reg, State(), trigger, key, machine, child.states, regions[i..], cancelledBy)
      {
        assert regions[i] in regions;
        assert regions[i..][0] == regions[i] && regions[i..][1..] == regions[i + 1..];
        var state := child.states[regions[i]];
        var sub := machine.ManagedSub(regions[i], state);
        if sub.Some? {
          ChildIsDeeper(entities.Keys, key, state);
          var cancelled := CancelSubtree(ChildKey(sub.value, key.id, state), AncestorCancelled, cancelledBy);
          if cancelled.Err? {
            return cancelled;
          }
        }
        i := i + 1;
      }
      assert regions[i..] == [];
      r := CancelOne(key, child, reason, cancelledBy);
    }

    /** The row, status and version of one cancelled instance. */
    method CancelOne(key: Key, child: Entity, reason: CancelReason, cancelledBy: RowRef) returns (r: Result<()>)
      requires child.instance.Some?
      modifies this
      ensures match Store.CancelOne(old(State()), trigger, key, child, reason, cancelledBy)
              case Ok(tx) => State() == tx && r == Ok(())
              case Err(error) => r == Err(error)
    {
      var instance := child.instance.value;
      var row := CancelRow(key, child, trigger, reason, cancelledBy);
      var id :- InsertHistory(row);
      var end := RowRef(id, row.identity);
      var entries := StoredEntries(child.version + 1, EffectiveEntries(child));
      var _ :- UpdateEntity(key, child.states, None, entries, child.version, Some(CancelledInstance(instance, end)));
      events := events + [Dropped(key, instance.depth, instance.link, reason, end)];
      return Ok(());
    }

    // -------------------------------------------------------------- start

    /** Adds the instance below a managed state, then those below the states it begins in. */
    method StartChild(
      parentKey: Key, parentPath: seq<Step>, region: string, state: string, entry: int) returns (r: Result<()>)
      requires parentKey.machine in reg
      modifies this
      ensures match Lifecycle.StartChild(reg, old(State()), trigger, parentKey, parentPath, region, state, entry)
              case Ok(tx) => State() == tx && r == Ok(())
              case Err(error) => r == Err(error)
      decreases MAX_MANAGED_DEPTH + 1 - |parentPath|, 1
    {
      var managed := reg[parentKey.machine].ManagedSub(region, state);
      if managed.None? {
        return Err(Internal);
      }
      var sub := managed.value;
      var depth := |parentPath| + 1;
      if depth > MAX_MANAGED_DEPTH {
        return Err(NestingDepthExceeded);
      }
      var machine :- LoadMachine(reg, sub.machineId);
      var fits := CheckRulesAgainst(sub, machine);
      if !fits {
        return Err(BadRequest);
      }
      var childKey := ChildKey(sub, parentKey.id, state);
      if childKey in entities {
        return Err(InstanceConflict);
      }
      var link := Step(parentKey.machine, parentKey.id, region, state, entry);
      var instance := Instance(Active, depth, parentPath, link, 1, None);
      var states := machine.InitialStates();
      entities := entities[childKey := NewEntity(states, map[], trigger.now, Some(instance))];
      events := events + [Started(childKey, depth, link)];
      r := StartChildren(childKey, parentPath + [link], states, SortedKeys(states.Keys));
    }

    /** What a new entity begins with below it. */
    method StartChildren(key: Key, path: seq<Step>, states: StateMap, regions: seq<string>) returns (r: Result<()>)
      requires key.machine in reg
      requires forall s :: s in regions ==> s in states
      modifies this
      ensures match Lifecycle.StartChildren(reg, old(State()), trigger, key, path, states, regions)
              case Ok(tx) => State() == tx && r == Ok(())
              case Err(error) => r == Err(error)
      decreases MAX_MANAGED_DEPTH + 1 - |path|, 2
    {
      var i := 0;
      assert regions[0..] == regions;
      while i < |regions|
        invariant 0 <= i <= |regions|
        invariant Lifecycle.StartChildren(reg, old(State()), trigger, key, path, states, regions)
               == Lifecycle.StartChildren(reg, State(), trigger, key, path, states, regions[i..])
      {
        assert regions[i] in regions;
        assert regions[i..][0] == regions[i] && regions[i..][1..] == regions[i + 1..];
        if reg[key.machine].ManagedSub(regions[i], states[regions[i]]).Some? {
          var started := StartChild(key, path, regions[i], states[regions[i]], 1);
          if started.Err? {
            return started;
          }
        }
        i := i + 1;
      }
      assert regions[i..] == [];
      return Ok(());
    }

    // -------------------------------------------------------------- lifecycle

    method CancelChildOf(
      key: Key, region: string, state: string, reason: CancelReason, cancelledBy: RowRef) returns (r: Result<()>)
      requires key.machine in reg
      modifies this
      ensures match Lifecycle.CancelChildOf(reg, old(State()), trigger, key, region, state, reason, cancelledBy)
              case Ok(tx) => State() == tx && r == Ok(())
              case Err(error) => r == Err(error)
    {
      var sub := reg[key.machine].ManagedSub(region, state);
      if sub.None? {
        return Ok(());
      }
      r := CancelSubtree(ChildKey(sub.value, key.id, state), reason, cancelledBy);
    }

    /** Ends and adds children of `key` where its entries differ, in the order of `regions`. */
    method ApplyChildLifecycle(
      key: Key, path: seq<Step>, before: map<string, RegionEntry>, after: map<string, RegionEntry>, ended: bool,
      cancelledBy: RowRef)
      returns (r: Result<()>)
      requires key.machine in reg
      modifies this
      ensures match Lifecycle.ApplyChildLifecycle(reg, old(State()), trigger, key, path, before, after,
                                                  SortedKeys(after.Keys), ended, cancelledBy)
              case Ok(tx) => State() == tx && r == Ok(())
              case Err(error) => r == Err(error)
    {
      var regions := SortedKeys(after.Keys);
      var i := 0;
      assert regions[0..] == regions;
      while i < |regions|
        invariant 0 <= i <= |regions|
        invariant Lifecycle.ApplyChildLifecycle(reg, old(State()), trigger, key, path, before, after, regions, ended,
                                                cancelledBy)
               == Lifecycle.ApplyChildLifecycle(reg, State(), trigger, key, path, before, after, regions[i..], ended,
                                                cancelledBy)
      {
        assert regions[i] in regions;
        assert regions[i..][0] == regions[i] && regions[i..][1..] == regions[i + 1..];
        var visited := LifecycleOfRegion(key, path, before, after, regions[i], ended, cancelledBy);
        if visited.Err? {
          return visited;
        }
        i := i + 1;
      }
      assert regions[i..] == [];
      return Ok(());
    }

    method LifecycleOfRegion(
      key: Key, path: seq<Step>, before: map<string, RegionEntry>, after: map<string, RegionEntry>, region: string,
      ended: bool, cancelledBy: RowRef)
      returns (r: Result<()>)
      requires key.machine in reg && region in after
      modifies this
      ensures match Lifecycle.LifecycleOfRegion(reg, old(State()), trigger, key, path, before, after, region, ended,
                                                cancelledBy)
              case Ok(tx) => State() == tx && r == Ok(())
              case Err(error) => r == Err(error)
    {
      if EntryChanged(before, after, region) {
        if region in before {
          var reason := if ended then ParentCompleted else ParentExit;
          var _ :- CancelChildOf(key, region, before[region].state, reason, cancelledBy);
        }
        if !ended && reg[key.machine].ManagedSub(region, after[region].state).Some? {
          r := StartChild(key, path, region, after[region].state, after[region].entry);
          return;
        }
      } else if ended {
        r := CancelChildOf(key, region, after[region].state, ParentCompleted, cancelledBy);
        return;
      }
      return Ok(());
    }

    // -------------------------------------------------------------- the write path

    /** History rows, region entries, completion and the entity's own update. */
    method WriteOwn(key: Key, entity: Entity, spec: WriteSpec) returns (r: Result<OwnWrite>)
      modifies this
      ensures match Store.WriteOwn(reg, old(State()), trigger.now, key, entity, spec)
              case Ok(w) => State() == w.tx && r == Ok(w)
              case Err(error) => r == Err(error)
    {
      var version := entity.version + 1;
      var id :- InsertHistory(MainRow(key, spec, trigger.now));
      var row := RowRef(id, spec.identity);
      var joined :- InsertJoinRows(key, spec.joins, version, spec.identity, spec.timestamp);
      var entered := [Entered(spec.region, spec.to, row)] + joined;
      var entries := AdvanceRegionEntries(EffectiveEntries(entity), spec.newStates, entered, version, trigger.now);
      var completion :- CompletionOf(reg, entity.instance, spec.newStates);
      var instance := EndInstance(entity.instance, completion, row);
      var _ :- UpdateEntity(key, spec.newStates, spec.context, entries, entity.version, instance);
      return Ok(OwnWrite(Tx(entities, history, events), row, entries, instance, completion));
    }

    /** The own write, the children and, if the instance is over, the parent. */
    method WriteEntity(key: Key, entity: Entity, spec: WriteSpec) returns (r: Result<RowRef>)
      requires key.machine in reg && Stored(State(), key, entity)
      modifies this
      ensures match Lifecycle.WriteEntity(reg, old(State()), trigger, key, entity, spec)
              case Ok((tx, written)) => State() == tx && r == Ok(written)
              case Err(error) => r == Err(error)
      decreases ActiveKeys(entities), 0
    {
      OwnWriteEnds(reg, State(), trigger.now, key, entity, spec);
      var w :- WriteOwn(key, entity, spec);
      var _ :- ApplyChildLifecycle(key, entity.Path(), EffectiveEntries(entity), w.entries.regions, w.completion.Some?,
                                   w.row);
      if w.completion.Some? {
        var _ :- CompleteParent(key, Encode(spec.newStates), w.instance.value, w.completion.value, w.row);
      }
      return Ok(w.row);
    }

    /** The upward step: adds the event of `child`, writes the parent, then completes the event with
        that write. */
    method CompleteParent(
      child: Key, childState: Encoded, instance: Instance, target: string, end: RowRef) returns (r: Result<()>)
      modifies this
      ensures match Lifecycle.CompleteParent(reg, old(State()), trigger, child, childState, instance, target, end)
              case Ok(tx) => State() == tx && r == Ok(())
              case Err(error) => r == Err(error)
      decreases ActiveKeys(entities), 1
    {
      var link := instance.link;
      var parentKey := Key(link.machine, link.entity);
      if parentKey !in entities {
        return Err(EntityNotFound);
      }
      var parent := entities[parentKey];
      var machine :- LoadMachine(reg, link.machine);
      if link.region !in parent.states || EntryOf(parent, link.region).state != link.state ||
         EntryOf(parent, link.region).entry != link.entry
      {
        return Err(Internal);
      }
      if !parent.Live() {
        return Err(Internal);
      }
      var cause := AdvanceCause(trigger, link, EntryOf(parent, link.region), child, childState, end);
      var index := |events|;
      events := events + [Finished(child, instance.depth, link, end, target, None)];
      var states, fired := ApplyJoins(machine.joins, parent.states[link.region := target], JOIN_DEPTH);
      var spec := WriteSpec(SubComplete, link.state, target, link.region, RowRegion(machine, link.region), map[],
                            trigger.timestamp,
                            SubId(link.region, link.state, link.entry), cause, states, fired, Some(parent.context));
      assert spec == AdvanceSpec(machine, parent, link.region, link.state, target, trigger.timestamp, cause);
      var written :- WriteEntity(parentKey, parent, spec);
      events := events[index := Finished(child, instance.depth, link, end, target, Some(written))];
      return Ok(());
    }

    // -------------------------------------------------------------- events

    /** Scan the entity's rows with this event type and timestamp, stopping at equal params. */
    method Dedup(key: Key, eventType: EventType, timestamp: int, params: Params) returns (seen: Seen)
      ensures seen == Requests.Dedup(history, key, eventType, timestamp, params)
    {
      seen := New;
      var i := 0;
      while i < |history|
        invariant 0 <= i <= |history|
        invariant seen == Clash || seen == New
        invariant seen == Clash <==> exists j :: 0 <= j < i && SameEvent(history[j], key, eventType, timestamp)
        invariant forall j :: 0 <= j < i && SameEvent(history[j], key, eventType, timestamp) ==>
                    history[j].params != params
      {
        if SameEvent(history[i], key, eventType, timestamp) {
          seen := Clash;
          if history[i].params == params {
            return Duplicate;
          }
        }
        i := i + 1;
      }
    }

    /** What an event did, without the transaction that the specification carries. */
    ghost predicate Matches(outcome: Outcome, answer: Answer)
      reads this
    {
      match outcome
      case Applied(tx, written) => State() == tx && answer == Wrote(written)
      case Forwarded(tx, child) => State() == tx && answer == Passed(child)
      case AlreadySeen => answer == Repeated
      case NoTransition => answer == Unhandled
    }

    /** An event at `key`: repeated, refused, applied there, passed down, or handled by nobody. */
    method TransitionInTx(key: Key, params: Params, forward: bool) returns (r: Result<Answer>)
      requires key.machine in reg
      modifies this
      ensures match Requests.TransitionInTx(reg, old(State()), trigger, key, params, forward)
              case Ok(outcome) =>
                && r.Ok? && Matches(outcome, r.value)
                && (r.value.Repeated? || r.value.Unhandled? ==> State() == old(State()))
              case Err(error) => r == Err(error)
      decreases KeysFrom(entities.Keys, key.id), 1
    {
      if key !in entities {
        return Err(EntityNotFound);
      }
      var entity := entities[key];
      var seen := Dedup(key, trigger.eventType, trigger.timestamp, params);
      match seen {
        case Duplicate => return Ok(Repeated);
        case Clash => return Err(EventIdentityConflict);
        case New =>
      }
      if !entity.Live() {
        return Err(InstanceNotActive);
      }
      EvaluatedInRegion(reg[key.machine].transitions, entity, trigger.eventType, params);
      var machine := reg[key.machine];
      var found := EvaluateEvent(machine.transitions, entity.states, entity.context, trigger.eventType, params);
      if found.Some? {
        var t := found.value;
        var states, fired := ApplyJoins(machine.joins, entity.states[t.Region() := t.to], JOIN_DEPTH);
        var spec := WriteSpec(trigger.eventType, t.from, t.to, t.Region(), RowRegion(machine, t.Region()), params,
                              trigger.timestamp,
                              EventId(trigger.eventType, trigger.timestamp), NoCause, states, fired,
                                  Some(entity.context + params));
        assert spec == EventSpec(machine, entity, t, params, trigger);
        var written :- WriteEntity(key, entity, spec);
        return Ok(Wrote(written));
      }
      if forward {
        r := TrySubMachineForward(key, params, CompoundStates(machine, entity.states));
        return;
      }
      return Ok(Unhandled);
    }

    /** Try the active managed children in turn; the first that handles the event wins. */
    method TrySubMachineForward(key: Key, params: Params, compounds: seq<Compound>) returns (r: Result<Answer>)
      requires key in entities
      modifies this
      ensures match Forward(reg, old(State()), trigger, key, params, compounds)
              case Ok(outcome) =>
                && r.Ok? && Matches(outcome, r.value)
                && (r.value.Repeated? || r.value.Unhandled? ==> State() == old(State()))
              case Err(error) => r == Err(error)
      decreases KeysFrom(entities.Keys, key.id), 0
    {
      ghost var start := State();
      var i := 0;
      assert compounds[0..] == compounds;
      while i < |compounds|
        invariant 0 <= i <= |compounds|
        invariant State() == start
        invariant Forward(reg, start, trigger, key, params, compounds)
               == Forward(reg, start, trigger, key, params, compounds[i..])
      {
        assert compounds[i..][0] == compounds[i] && compounds[i..][1..] == compounds[i + 1..];
        var c := compounds[i];
        var child := ChildKey(c.sub, key.id, c.state);
        ChildIsDeeper(entities.Keys, key, c.state);
        if c.sub.managed && child in entities && entities[child].IsActiveChild() {
          var machine :- LoadMachine(reg, child.machine);
          var answer :- TransitionInTx(child, params, true);
          if answer.Wrote? || answer.Passed? {
            return Ok(Passed(child));
          }
        }
        i := i + 1;
      }
      assert compounds[i..] == [];
      return Ok(Unhandled);
    }

    /** Resolve the target path from the definitions, one hop at a time. */
    method ResolveHops(start: Key, target: seq<TargetStep>) returns (r: Result<seq<Hop>>)
      requires start.machine in reg
      ensures r == Requests.ResolveHops(reg, start, target)
    {
      ghost var spec := Requests.ResolveHops(reg, start, target);
      var hops: seq<Hop> := [];
      var key := start;
      var i := 0;
      assert target[0..] == target;
      assert spec.Ok? ==> [] + spec.value == spec.value;
      while i < |target|
        invariant 0 <= i <= |target| && key.machine in reg
        invariant spec == Prepend(hops, Requests.ResolveHops(reg, key, target[i..]))
      {
        assert target[i..][0] == target[i] && target[i..][1..] == target[i + 1..];
        var step := target[i];
        var sub := reg[key.machine].ManagedSub(step.region, step.state);
        if sub.None? {
          return Err(BadRequest);
        }
        var child := ChildKey(sub.value, key.id, step.state);
        var machine :- LoadMachine(reg, child.machine);
        var hop := Hop(key, step.region, step.state, step.entry, child);
        ghost var rest := Requests.ResolveHops(reg, child, target[i + 1..]);
        assert rest.Ok? ==> hops + ([hop] + rest.value) == hops + [hop] + rest.value;
        hops := hops + [hop];
        key := child;
        i := i + 1;
      }
      assert target[i..] == [] && hops + [] == hops;
      return Ok(hops);
    }

    /** Delivery by path: repetitions are recognised first, then each hop must be current. */
    method ExecuteTargeted(start: Key, target: seq<TargetStep>, params: Params) returns (r: Result<Answer>)
      requires start.machine in reg
      modifies this
      ensures match Requests.ExecuteTargeted(reg, old(State()), trigger, start, target, params)
              case Ok(outcome) =>
                && r.Ok? && Matches(outcome, r.value)
                && (r.value.Repeated? || r.value.Unhandled? ==> State() == old(State()))
              case Err(error) => r == Err(error)
    {
      var hops :- ResolveHops(start, target);
      var key := HopsEnd(start, hops);
      var seen := Dedup(key, trigger.eventType, trigger.timestamp, params);
      match seen {
        case Duplicate => return Ok(Repeated);
        case Clash => return Err(EventIdentityConflict);
        case New =>
      }
      if start !in entities {
        return Err(EntityNotFound);
      }
      if !entities[start].Live() {
        return Err(TargetNotActive);
      }
      var i := 0;
      while i < |hops|
        invariant 0 <= i <= |hops|
        invariant forall j :: 0 <= j < i ==> HopCurrent(entities, hops[j])
      {
        if !HopCurrent(entities, hops[i]) {
          return Err(TargetNotActive);
        }
        i := i + 1;
      }
      ResolvedRegistered(reg, start, target);
      r := TransitionInTx(key, params, false);
    }

    /** Adds a root and what its initial states need below it. An existing key is a conflict, or false
        if `orIgnore`. */
    method CreateRoot(key: Key, context: Context, orIgnore: bool) returns (r: Result<bool>)
      requires key.machine in reg
      modifies this
      ensures if orIgnore && key in old(entities) then
                State() == old(State()) && r == Ok(false)
              else
                match Requests.CreateRoot(reg, old(State()), trigger, key, context)
                case Ok(tx) => State() == tx && r == Ok(true)
                case Err(error) => r == Err(error)
    {
      if key in entities {
        return if orIgnore then Ok(false) else Err(Conflict);
      }
      var states := reg[key.machine].InitialStates();
      entities := entities[key := NewEntity(states, context, trigger.now, None)];
      var _ :- StartChildren(key, [], states, SortedKeys(states.Keys));
      return Ok(true);
    }
  }

  function Prepend(hops: seq<Hop>, rest: Result<seq<Hop>>): Result<seq<Hop>> {
    match rest
    case Ok(more) => Ok(hops + more)
    case Err(error) => Err(error)
  }

  /** The join rows still to insert, after those already inserted. */
  function After(done: seq<Entered>, rest: Result<(Tx, seq<Entered>)>): Result<(Tx, seq<Entered>)> {
    match rest
    case Ok((tx, more)) => Ok((tx, done + more))
    case Err(error) => Err(error)
  }

  lemma AfterNothing(rest: Result<(Tx, seq<Entered>)>)
    ensures After([], rest) == rest
  {
    assert rest.Ok? ==> [] + rest.value.1 == rest.value.1;
  }

  lemma AfterOneMore(done: seq<Entered>, e: Entered, rest: Result<(Tx, seq<Entered>)>)
    ensures After(done, After([e], rest)) == After(done + [e], rest)
  {
    assert rest.Ok? ==> done + ([e] + rest.value.1) == done + [e] + rest.value.1;
  }

  /** The answer to an event. */
  datatype Answer = Wrote(written: RowRef) | Passed(child: Key) | Repeated | Unhandled
}
