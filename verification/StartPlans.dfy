/** Which starts succeed: the keys that a start would create can be read off the definitions, and on an
    accepted tree it succeeds exactly when they are distinct and none is taken. */
module StartPlans {
  import opened Names
  import opened Models
  import opened Engine
  import opened Store
  import opened Lifecycle
  import opened Ledger
  import opened WriteProofs
  import opened LedgerProofs
  import opened Tree
  import opened CascadeProofs
  import opened Nesting
  import opened Acceptance

  // ---------------------------------------------------------------- plans

  /** The child of `state`, then everything below it. */
  function Plan(reg: Registry, parent: Key, depth: nat, region: string, state: string): seq<Key>
    requires parent.machine in reg
    decreases MAX_MANAGED_DEPTH + 1 - depth, 1, 0
  {
    match reg[parent.machine].ManagedSub(region, state)
    case None => []
    case Some(sub) =>
      if depth + 1 > MAX_MANAGED_DEPTH || sub.machineId !in reg then
        []
      else
        var child := ChildKey(sub, parent.id, state);
        var states := reg[child.machine].InitialStates();
        [child] + PlanAll(reg, child, depth + 1, states, SortedKeys(states.Keys))
  }

  function PlanAll(reg: Registry, key: Key, depth: nat, states: StateMap, regions: seq<string>): seq<Key>
    requires key.machine in reg
    requires forall r :: r in regions ==> r in states
    decreases MAX_MANAGED_DEPTH + 1 - depth, 2, |regions|
  {
    if regions == [] then []
    else Plan(reg, key, depth, regions[0], states[regions[0]]) + PlanAll(reg, key, depth, states, regions[1..])
  }

  function Planned(plan: seq<Key>): set<Key> {
    set k | k in plan
  }

  predicate Fits(taken: set<Key>, plan: seq<Key>) {
    NoDups(plan) && forall k :: k in plan ==> k !in taken
  }

  /** A plan fits if its first part does and the rest still does after it. */
  lemma FitsInTurn(taken: set<Key>, p: seq<Key>, q: seq<Key>)
    ensures Fits(taken, p + q) <==> Fits(taken, p) && Fits(taken + Planned(p), q)
    ensures Planned(p + q) == Planned(p) + Planned(q)
  {
    var plan := p + q;
    if Fits(taken, plan) {
      forall i | 0 <= i < |p| ensures plan[i] == p[i] {
      }
      forall i | 0 <= i < |q| ensures plan[|p| + i] == q[i] {
      }
      forall k | k in q ensures k !in taken + Planned(p) {
        assert k in plan;
      }
    }
    if Fits(taken, p) && Fits(taken + Planned(p), q) {
      forall i, j | 0 <= i < j < |plan| ensures plan[i] != plan[j] {
        if i < |p| <= j {
          assert plan[i] in Planned(p) && plan[j] in q;
        }
      }
    }
  }

  // ---------------------------------------------------------------- a start follows its plan

  /** Success creates exactly the plan; an instance conflict means that the plan did not fit. */
  ghost predicate Follows(r: Result<Tx>, taken: set<Key>, plan: seq<Key>) {
    if r.Ok? then Fits(taken, plan) && r.value.entities.Keys == taken + Planned(plan)
    else r.error == InstanceConflict ==> !Fits(taken, plan)
  }

  lemma FollowsInTurn(r: Result<Tx>, taken: set<Key>, p: seq<Key>, q: seq<Key>)
    requires Fits(taken, p) && Follows(r, taken + Planned(p), q)
    ensures Follows(r, taken, p + q)
  {
    FitsInTurn(taken, p, q);
  }

  /** A part of the plan that cannot be carried out ends all of it. */
  lemma FailsInTurn(r: Result<Tx>, taken: set<Key>, p: seq<Key>, q: seq<Key>)
    requires r.Err? && Follows(r, taken, p)
    ensures Follows(r, taken, p + q)
  {
    FitsInTurn(taken, p, q);
  }

  /** The start creates its own child. */
  predicate GoesOn(reg: Registry, tx: Tx, parent: Key, path: seq<Step>, region: string, state: string)
    requires parent.machine in reg
  {
    match reg[parent.machine].ManagedSub(region, state)
    case None => false
    case Some(sub) =>
      && |path| + 1 <= MAX_MANAGED_DEPTH
      && sub.machineId in reg && RulesFit(sub, reg[sub.machineId])
      && ChildKey(sub, parent.id, state) !in tx.entities
  }

  lemma StartStops(
    reg: Registry, tx: Tx, trig: Trigger, parent: Key, path: seq<Step>, region: string, state: string, entry: int)
    requires parent.machine in reg && !GoesOn(reg, tx, parent, path, region, state)
    ensures Follows(StartChild(reg, tx, trig, parent, path, region, state, entry), tx.entities.Keys,
                    Plan(reg, parent, |path|, region, state))
  {
    var plan := Plan(reg, parent, |path|, region, state);
    assert plan != [] ==> plan[0] in plan;
  }

  lemma StartGoesOn(
    reg: Registry, tx: Tx, trig: Trigger, parent: Key, path: seq<Step>, region: string, state: string, entry: int)
    requires parent.machine in reg && GoesOn(reg, tx, parent, path, region, state)
    requires var sub := reg[parent.machine].ManagedSub(region, state).value;
             var child, link := ChildKey(sub, parent.id, state), Step(parent.machine, parent.id, region, state, entry);
             var states := reg[sub.machineId].InitialStates();
             var tx1 := StartedTx(tx, reg, child, path, link, trig.now);
             var path1, regions := path + [link], SortedKeys(states.Keys);
             Follows(StartChildren(reg, tx1, trig, child, path1, states, regions), tx1.entities.Keys,
                     PlanAll(reg, child, |path1|, states, regions))
    ensures Follows(StartChild(reg, tx, trig, parent, path, region, state, entry), tx.entities.Keys,
                    Plan(reg, parent, |path|, region, state))
  {
    var child := ChildKey(reg[parent.machine].ManagedSub(region, state).value, parent.id, state);
    var states := reg[child.machine].InitialStates();
    var link := Step(parent.machine, parent.id, region, state, entry);
    var tx1 := StartedTx(tx, reg, child, path, link, trig.now);
    var regions := SortedKeys(states.Keys);
    assert tx1.entities.Keys == tx.entities.Keys + Planned([child]);
    FollowsInTurn(StartChildren(reg, tx1, trig, child, path + [link], states, regions), tx.entities.Keys, [child],
                  PlanAll(reg, child, |path| + 1, states, regions));
  }

  lemma {:induction false} StartFollows(
    reg: Registry, tx: Tx, trig: Trigger, parent: Key, path: seq<Step>, region: string, state: string, entry: int)
    requires parent.machine in reg
    ensures Follows(StartChild(reg, tx, trig, parent, path, region, state, entry), tx.entities.Keys,
                    Plan(reg, parent, |path|, region, state))
    decreases MAX_MANAGED_DEPTH + 1 - |path|, 1, 0
  {
    if GoesOn(reg, tx, parent, path, region, state) {
      var sub := reg[parent.machine].ManagedSub(region, state).value;
      var child := ChildKey(sub, parent.id, state);
      var states := reg[sub.machineId].InitialStates();
      var link := Step(parent.machine, parent.id, region, state, entry);
      StartsFollow(reg, StartedTx(tx, reg, child, path, link, trig.now), trig, child, path + [link], states,
                   SortedKeys(states.Keys));
      StartGoesOn(reg, tx, trig, parent, path, region, state, entry);
    } else {
      StartStops(reg, tx, trig, parent, path, region, state, entry);
    }
  }

  lemma {:induction false} StartsFollow(
    reg: Registry, tx: Tx, trig: Trigger, key: Key, path: seq<Step>, states: StateMap, regions: seq<string>)
    requires key.machine in reg
    requires forall r :: r in regions ==> r in states
    ensures Follows(StartChildren(reg, tx, trig, key, path, states, regions), tx.entities.Keys,
                    PlanAll(reg, key, |path|, states, regions))
    decreases MAX_MANAGED_DEPTH + 1 - |path|, 2, |regions|
  {
    if regions != [] {
      var state := states[regions[0]];
      var first, rest := Plan(reg, key, |path|, regions[0], state), PlanAll(reg, key, |path|, states, regions[1..]);
      var all := StartChildren(reg, tx, trig, key, path, states, regions);
      if reg[key.machine].ManagedSub(regions[0], state).Some? {
        StartFollows(reg, tx, trig, key, path, regions[0], state, 1);
        var r := StartChild(reg, tx, trig, key, path, regions[0], state, 1);
        if r.Ok? {
          StartsFollow(reg, r.value, trig, key, path, states, regions[1..]);
          FollowsInTurn(all, tx.entities.Keys, first, rest);
        } else {
          FailsInTurn(all, tx.entities.Keys, first, rest);
        }
      } else {
        assert tx.entities.Keys + Planned(first) == tx.entities.Keys;
        StartsFollow(reg, tx, trig, key, path, states, regions[1..]);
        FollowsInTurn(all, tx.entities.Keys, first, rest);
      }
    }
  }

  /** Below an accepted root a start succeeds exactly when its plan fits, and creates exactly the plan. */
  lemma StartExact(
    reg: Registry, root: string, tx: Tx, trig: Trigger, parent: Key, path: seq<Step>, region: string, state: string,
    entry: int)
    requires AcceptedRoot(reg, root) && PathOf(reg, root, path, parent.machine)
    requires parent.machine in reg && reg[parent.machine].ManagedSub(region, state).Some?
    ensures var r := StartChild(reg, tx, trig, parent, path, region, state, entry);
            var plan := Plan(reg, parent, |path|, region, state);
            && (r.Ok? <==> Fits(tx.entities.Keys, plan))
            && (r.Ok? ==> r.value.entities.Keys == tx.entities.Keys + Planned(plan))
            && (r.Err? ==> r.error == InstanceConflict)
  {
    StartFollows(reg, tx, trig, parent, path, region, state, entry);
    AcceptedStarts(reg, root, tx, trig, parent, path, region, state, entry);
  }

  // ---------------------------------------------------------------- one written entity

  /** The regions that a write's step and its joins enter. */
  function RegionsEntered(region: string, joins: seq<JoinFired>): set<string> {
    {region} + set i | 0 <= i < |joins| :: joins[i].targetRegion
  }

  /** The children of the managed states among those entered. */
  function RegionsPlan(
    reg: Registry, key: Key, depth: nat, states: StateMap, entered: set<string>, regions: seq<string>): seq<Key>
    requires key.machine in reg
    requires forall r :: r in regions ==> r in states
  {
    if regions == [] then []
    else
      RegionPlan(reg, key, depth, states, entered, regions[0]) +
      RegionsPlan(reg, key, depth, states, entered, regions[1..])
  }

  /** The entries of a write tell which regions it entered. */
  ghost predicate EntriesTell(
    before: map<string, RegionEntry>, after: map<string, RegionEntry>, states: StateMap, entered: set<string>,
    r: string)
  {
    r in after && r in states && after[r].state == states[r] && (EntryChanged(before, after, r) <==> r in entered)
  }

  function RegionPlan(
    reg: Registry, key: Key, depth: nat, states: StateMap, entered: set<string>, r: string): seq<Key>
    requires key.machine in reg && r in states
  {
    if r in entered then Plan(reg, key, depth, r, states[r]) else []
  }

  /** The children that left, or were left over, are cancelled first: that creates no key. */
  function Cleared(
    reg: Registry, tx: Tx, trig: Trigger, key: Key, before: map<string, RegionEntry>, after: map<string, RegionEntry>,
    r: string, ended: bool, cancelledBy: RowRef): Result<Tx>
    requires key.machine in reg && r in after
  {
    if EntryChanged(before, after, r) && r in before then
      CancelChildOf(reg, tx, trig, key, r, before[r].state, if ended then ParentCompleted else ParentExit, cancelledBy)
    else if !EntryChanged(before, after, r) && ended then
      CancelChildOf(reg, tx, trig, key, r, after[r].state, ParentCompleted, cancelledBy)
    else
      Ok(tx)
  }

  lemma ClearedKeys(
    reg: Registry, tx: Tx, trig: Trigger, key: Key, before: map<string, RegionEntry>, after: map<string, RegionEntry>,
    r: string, ended: bool, cancelledBy: RowRef)
    requires Registered(reg, tx.entities.Keys) && key.machine in reg && r in after
    ensures var cleared := Cleared(reg, tx, trig, key, before, after, r, ended, cancelledBy);
            if cleared.Ok? then cleared.value.entities.Keys == tx.entities.Keys else cleared.error != InstanceConflict
  {
    if EntryChanged(before, after, r) && r in before {
      var reason := if ended then ParentCompleted else ParentExit;
      CancelKeys(reg, tx, trig, key, r, before[r].state, reason, cancelledBy);
    } else if !EntryChanged(before, after, r) && ended {
      CancelKeys(reg, tx, trig, key, r, after[r].state, ParentCompleted, cancelledBy);
    }
  }

  lemma CancelKeys(
    reg: Registry, tx: Tx, trig: Trigger, key: Key, region: string, state: string, reason: CancelReason,
    cancelledBy: RowRef)
    requires Registered(reg, tx.entities.Keys) && key.machine in reg
    ensures var r := CancelChildOf(reg, tx, trig, key, region, state, reason, cancelledBy);
            if r.Ok? then r.value.entities.Keys == tx.entities.Keys else r.error != InstanceConflict
  {
    match reg[key.machine].ManagedSub(region, state)
    case None =>
    case Some(sub) => CancelSubtreeRefusal(reg, tx, trig, ChildKey(sub, key.id, state), reason, cancelledBy);
  }

  lemma RegionFollows(
    reg: Registry, tx: Tx, trig: Trigger, key: Key, path: seq<Step>, before: map<string, RegionEntry>,
    after: map<string, RegionEntry>, r0: string, ended: bool, cancelledBy: RowRef, states: StateMap,
    entered: set<string>)
    requires Registered(reg, tx.entities.Keys) && key.machine in reg && EntriesTell(before, after, states, entered, r0)
    ensures var r := LifecycleOfRegion(reg, tx, trig, key, path, before, after, r0, ended, cancelledBy);
            && Follows(r, tx.entities.Keys, if ended then [] else RegionPlan(reg, key, |path|, states, entered, r0))
            && (r.Ok? ==> Registered(reg, r.value.entities.Keys))
  {
    ClearedKeys(reg, tx, trig, key, before, after, r0, ended, cancelledBy);
    var cleared := Cleared(reg, tx, trig, key, before, after, r0, ended, cancelledBy);
    var r := LifecycleOfRegion(reg, tx, trig, key, path, before, after, r0, ended, cancelledBy);
    if cleared.Ok? && !ended && r0 in entered && reg[key.machine].ManagedSub(r0, states[r0]).Some? {
      StartFollows(reg, cleared.value, trig, key, path, r0, states[r0], after[r0].entry);
      StartRegisters(reg, cleared.value, trig, key, path, r0, states[r0], after[r0].entry);
    } else {
      assert r == cleared;
      assert tx.entities.Keys + Planned([]) == tx.entities.Keys;
    }
  }

  lemma {:induction false} LifecycleFollows(
    reg: Registry, tx: Tx, trig: Trigger, key: Key, path: seq<Step>, before: map<string, RegionEntry>,
    after: map<string, RegionEntry>, regions: seq<string>, ended: bool, cancelledBy: RowRef, states: StateMap,
    entered: set<string>)
    requires Registered(reg, tx.entities.Keys) && key.machine in reg
    requires forall r :: r in regions ==> r in after && r in states
    requires forall r :: r in regions ==> EntriesTell(before, after, states, entered, r)
    ensures Follows(ApplyChildLifecycle(reg, tx, trig, key, path, before, after, regions, ended, cancelledBy),
                    tx.entities.Keys,
                    if ended then [] else RegionsPlan(reg, key, |path|, states, entered, regions))
    decreases |regions|
  {
    if regions == [] {
      assert tx.entities.Keys + Planned([]) == tx.entities.Keys;
    } else {
      var r0, rest := regions[0], regions[1..];
      var first := if ended then [] else RegionPlan(reg, key, |path|, states, entered, r0);
      var later := if ended then [] else RegionsPlan(reg, key, |path|, states, entered, rest);
      RegionFollows(reg, tx, trig, key, path, before, after, r0, ended, cancelledBy, states, entered);
      var r := LifecycleOfRegion(reg, tx, trig, key, path, before, after, r0, ended, cancelledBy);
      var all := ApplyChildLifecycle(reg, tx, trig, key, path, before, after, regions, ended, cancelledBy);
      if r.Ok? {
        LifecycleFollows(reg, r.value, trig, key, path, before, after, rest, ended, cancelledBy, states, entered);
        FollowsInTurn(all, tx.entities.Keys, first, later);
      } else {
        FailsInTurn(all, tx.entities.Keys, first, later);
      }
    }
  }

  lemma {:induction false} LastEnteredSome(entered: seq<Entered>, r: string)
    ensures LastEntered(entered, r).Some? <==> exists i :: 0 <= i < |entered| && entered[i].region == r
    decreases |entered|
  {
    if entered != [] {
      var n := |entered| - 1;
      LastEnteredSome(entered[..n], r);
      assert forall i :: 0 <= i < n ==> entered[..n][i] == entered[i];
    }
  }

  /** A region's entry is another one exactly if the region was entered. */
  lemma AdvancedTells(e: Entity, r: string, state: string, entered: seq<Entered>, now: int)
    requires r in e.states && EntryCurrent(e, r)
    requires match LastEntered(entered, r)
             case None => state == e.states[r]
             case Some(last) => state == last.state
    ensures var entry := AdvancedEntry(EffectiveEntries(e), r, state, entered, e.version + 1, now);
            && entry.state == state
            && (entry.entry != EntryOf(e, r).entry <==> LastEntered(entered, r).Some?)
  {
    assert EffectiveEntries(e)[r] == EntryOf(e, r);
  }

  /** That is, if the write's step or one of its joins enters it. */
  lemma WriteTells(e: Entity, spec: WriteSpec, row: nat, now: int, r: string)
    requires spec.region in e.states && JoinsWithin(spec.joins, e.states.Keys) && r in e.states
    requires spec.newStates == ApplyFired(e.states[spec.region := spec.to], spec.joins)
    requires DocumentCurrent(e) && e.version >= 1
    ensures var after := AdvanceEntries(EffectiveEntries(e), spec.newStates, WriteEntered(e, spec, row),
                                        e.version + 1, now).regions;
            EntriesTell(EffectiveEntries(e), after, spec.newStates, RegionsEntered(spec.region, spec.joins), r)
  {
    var entered := WriteEntered(e, spec, row);
    WriteEntersLast(e, spec, row, r);
    assert EntryCurrent(e, r);
    AdvancedTells(e, r, spec.newStates[r], entered, now);
    LastEnteredSome(entered, r);
    EnteredRegions(entered, spec.region, spec.joins, r);
  }

  lemma WriteEntersLast(e: Entity, spec: WriteSpec, row: nat, r: string)
    requires spec.region in e.states && JoinsWithin(spec.joins, e.states.Keys) && r in e.states
    requires spec.newStates == ApplyFired(e.states[spec.region := spec.to], spec.joins)
    ensures r in spec.newStates
    ensures match LastEntered(WriteEntered(e, spec, row), r)
            case None => spec.newStates[r] == e.states[r]
            case Some(last) => spec.newStates[r] == last.state
  {
    var entered := WriteEntered(e, spec, row);
    assert spec.joins[..|spec.joins|] == spec.joins && entered[..|spec.joins| + 1] == entered;
    LastEnteredState(e, spec, row, |spec.joins|, r);
  }

  lemma EnteredRegions(entered: seq<Entered>, region: string, joins: seq<JoinFired>, r: string)
    requires |entered| == |joins| + 1 && entered[0].region == region
    requires forall i :: 0 <= i < |joins| ==> entered[i + 1].region == joins[i].targetRegion
    ensures r in RegionsEntered(region, joins) <==> exists i :: 0 <= i < |entered| && entered[i].region == r
  {
    if r in RegionsEntered(region, joins) && r != region {
      var i :| 0 <= i < |joins| && joins[i].targetRegion == r;
      assert entered[i + 1].region == r;
    }
    forall i | 0 <= i < |entered| && entered[i].region == r ensures r in RegionsEntered(region, joins) {
      if i > 0 {
        assert joins[i - 1].targetRegion == r;
      }
    }
  }

  // ---------------------------------------------------------------- a write with its cascade

  /** The upward step of a completion has an entity to write. */
  predicate HasParent(reg: Registry, entities: map<Key, Entity>, e: Entity, link: Step) {
    var parent := ParentKey(link);
    && parent in entities && parent.machine in reg
    && link.region in entities[parent].states
    && |entities[parent].Path()| < |e.Path()|
  }

  /** What the topmost write of a cascade creates: the write itself if it does not end its instance,
      otherwise the parent's. */
  function CascadePlan(
    reg: Registry, entities: map<Key, Entity>, key: Key, states: StateMap, entered: set<string>): seq<Key>
    requires key in entities && key.machine in reg
    decreases |entities[key].Path()|, 0
  {
    var e := entities[key];
    match CompletionOf(reg, e.instance, states)
    case Ok(Some(target)) =>
      if HasParent(reg, entities, e, e.instance.value.link) then
        ParentPlan(reg, entities, e.instance.value.link, target)
      else
        []
    case _ =>
      RegionsPlan(reg, key, |e.Path()|, states, entered, SortedKeys(states.Keys))
  }

  /** The parent moves to the completion's target and fires the joins from there. */
  function ParentPlan(reg: Registry, entities: map<Key, Entity>, link: Step, target: string): seq<Key>
    requires ParentKey(link) in entities && link.machine in reg && link.region in entities[ParentKey(link)].states
    decreases |entities[ParentKey(link)].Path()|, 1
  {
    var moved := entities[ParentKey(link)].states[link.region := target];
    var fired := JoinCascade(reg[link.machine].joins, moved, JOIN_DEPTH);
    CascadePlan(reg, entities, ParentKey(link), ApplyFired(moved, fired), RegionsEntered(link.region, fired))
  }

  function SpecPlan(reg: Registry, entities: map<Key, Entity>, key: Key, spec: WriteSpec): seq<Key>
    requires key in entities && key.machine in reg
  {
    CascadePlan(reg, entities, key, spec.newStates, RegionsEntered(spec.region, spec.joins))
  }

  ghost predicate PathsKept(entities: map<Key, Entity>, entities': map<Key, Entity>) {
    entities'.Keys == entities.Keys &&
    forall k {:trigger entities'[k]} :: k in entities ==> |entities'[k].Path()| == |entities[k].Path()|
  }

  /** The plan of an upward step depends on the parent and what is above it only. */
  lemma {:induction false} ParentPlanFrame(
    reg: Registry, entities: map<Key, Entity>, entities': map<Key, Entity>, depth: nat, link: Step, target: string)
    requires ShorterKept(entities, entities', depth) && PathsKept(entities, entities')
    requires ParentKey(link) in entities && link.machine in reg && link.region in entities[ParentKey(link)].states
    requires |entities[ParentKey(link)].Path()| < depth
    ensures entities'[ParentKey(link)] == entities[ParentKey(link)]
    ensures ParentPlan(reg, entities', link, target) == ParentPlan(reg, entities, link, target)
    decreases |entities[ParentKey(link)].Path()|
  {
    var e := entities[ParentKey(link)];
    assert entities'[ParentKey(link)] == e;
    var moved := e.states[link.region := target];
    var states := ApplyFired(moved, JoinCascade(reg[link.machine].joins, moved, JOIN_DEPTH));
    var completion := CompletionOf(reg, e.instance, states);
    if completion.Ok? && completion.value.Some? {
      var above := e.instance.value.link;
      HasParentFrame(reg, entities, entities', depth, e, above);
      if HasParent(reg, entities, e, above) {
        ParentPlanFrame(reg, entities, entities', depth, above, completion.value.value);
      }
    }
  }

  lemma HasParentFrame(
    reg: Registry, entities: map<Key, Entity>, entities': map<Key, Entity>, depth: nat, e: Entity, link: Step)
    requires ShorterKept(entities, entities', depth) && |e.Path()| <= depth
    requires PathsKept(entities, entities')
    ensures HasParent(reg, entities', e, link) <==> HasParent(reg, entities, e, link)
  {
    var parent := ParentKey(link);
    if parent in entities && |entities[parent].Path()| < depth {
      assert entities'[parent] == entities[parent];
    }
  }

  function TxOf(r: Result<(Tx, RowRef)>): Result<Tx> {
    match r
    case Ok(w) => Ok(w.0)
    case Err(error) => Err(error)
  }

  /** The own write and the children of its entity. */
  lemma OwnFollows(reg: Registry, tx: Tx, trig: Trigger, key: Key, e: Entity, spec: WriteSpec, w: OwnWrite)
    requires WriteReady(reg, tx, trig.now, key, e, spec) && WriteOwn(reg, tx, trig.now, key, e, spec) == Ok(w)
    ensures key.machine in reg
    ensures Follows(ApplyChildLifecycle(reg, w.tx, trig, key, e.Path(), EffectiveEntries(e), w.entries.regions,
                                        SortedKeys(w.entries.regions.Keys), w.completion.Some?, w.row),
                    tx.entities.Keys,
                    if w.completion.Some? then []
                    else RegionsPlan(reg, key, |e.Path()|, spec.newStates, RegionsEntered(spec.region, spec.joins),
                                     SortedKeys(spec.newStates.Keys)))
    ensures CompletionOf(reg, e.instance, spec.newStates) == Ok(w.completion)
  {
    OwnRegistered(reg, tx, trig.now, key, e, spec);
    WriteOwnEffect(reg, tx, trig.now, key, e, spec);
    assert EntityOkAt(reg, tx.entities, tx.history, key);
    AdvancedRegions(e, spec, w.row.row, trig.now);
    forall r | r in spec.newStates
      ensures r in w.entries.regions
      ensures EntriesTell(EffectiveEntries(e), w.entries.regions, spec.newStates,
                          RegionsEntered(spec.region, spec.joins), r)
    {
      WriteTells(e, spec, w.row.row, trig.now, r);
    }
    LifecycleFollows(reg, w.tx, trig, key, e.Path(), EffectiveEntries(e), w.entries.regions,
                     SortedKeys(w.entries.regions.Keys), w.completion.Some?, w.row, spec.newStates,
                     RegionsEntered(spec.region, spec.joins));
  }

  /** After a write that ended its instance the upward step is still the one planned before it. */
  lemma PlanHolds(reg: Registry, tx: Tx, now: int, key: Key, e: Entity, spec: WriteSpec, tx1: Tx, w: OwnWrite)
    requires WriteReady(reg, tx, now, key, e, spec) && OwnDone(reg, tx, tx1, key, e, w) && key.machine in reg
    requires CompletionOf(reg, e.instance, spec.newStates) == Ok(w.completion) && w.completion.Some?
    requires w.instance.Some? && ParentWaits(reg, tx1, key, Encode(spec.newStates), w.instance.value,
                                             w.completion.value, w.row, RootOf(key, e))
    requires e.instance.Some? && w.instance.value.link == e.instance.value.link
    ensures e.instance.value.link.machine in reg
    ensures SpecPlan(reg, tx.entities, key, spec)
         == ParentPlan(reg, tx1.entities, e.instance.value.link, w.completion.value)
  {
    var link := e.instance.value.link;
    assert Up(reg, tx.entities, key);
    assert |tx.entities[ParentKey(link)].Path()| < |e.Path()|;
    assert HasParent(reg, tx.entities, e, link);
    forall k | k in tx.entities ensures |tx1.entities[k].Path()| == |tx.entities[k].Path()| {
      assert TouchedAt(tx.entities, tx1.entities, RootOf(key, e), k);
    }
    ParentPlanFrame(reg, tx.entities, tx1.entities, |e.Path()|, link, w.completion.value);
  }

  lemma CompletedAsPlanned(
    reg: Registry, tx: Tx, now: int, key: Key, e: Entity, spec: WriteSpec, tx1: Tx, w: OwnWrite)
    requires WriteReady(reg, tx, now, key, e, spec) && OwnDone(reg, tx, tx1, key, e, w) && key.machine in reg
    requires WriteOwn(reg, tx, now, key, e, spec) == Ok(w) && w.completion.Some?
    ensures tx1.entities.Keys == tx.entities.Keys
    ensures w.instance.Some? && ParentWaits(reg, tx1, key, Encode(spec.newStates), w.instance.value,
                                            w.completion.value, w.row, RootOf(key, e))
    ensures w.instance.value.link.machine in reg
    ensures SpecPlan(reg, tx.entities, key, spec)
         == ParentPlan(reg, tx1.entities, w.instance.value.link, w.completion.value)
  {
    CompletionAwaits(reg, tx, now, key, e, spec, tx1, w);
    WriteOwnEffect(reg, tx, now, key, e, spec);
    PlanHolds(reg, tx, now, key, e, spec, tx1, w);
  }

  /** A ready write creates exactly the plan of its cascade, or meets a refusal of another kind. */
  lemma {:induction false} WriteFollows(
    reg: Registry, tx: Tx, trig: Trigger, key: Key, entity: Entity, spec: WriteSpec)
    requires WriteReady(reg, tx, trig.now, key, entity, spec)
    ensures key.machine in reg
    ensures Follows(TxOf(WriteEntity(reg, tx, trig, key, entity, spec)), tx.entities.Keys,
                    SpecPlan(reg, tx.entities, key, spec))
    decreases ActiveKeys(tx.entities), 0
  {
    OwnWriteEnds(reg, tx, trig.now, key, entity, spec);
    OwnLifecycle(reg, tx, trig, key, entity, spec);
    var w := WriteOwn(reg, tx, trig.now, key, entity, spec).value;
    OwnFollows(reg, tx, trig, key, entity, spec, w);
    var own := ApplyChildLifecycle(reg, w.tx, trig, key, entity.Path(), EffectiveEntries(entity), w.entries.regions,
                                   SortedKeys(w.entries.regions.Keys), w.completion.Some?, w.row);
    if own.Ok? && w.completion.Some? {
      CompletedAsPlanned(reg, tx, trig.now, key, entity, spec, own.value, w);
      ParentFollows(reg, own.value, trig, key, Encode(spec.newStates), w.instance.value, w.completion.value, w.row);
    }
  }

  lemma {:induction false} ParentFollows(
    reg: Registry, tx: Tx, trig: Trigger, child: Key, childState: Encoded, instance: Instance, target: string,
    end: RowRef)
    requires WellFormedRegistry(reg) && LedgerOk(reg, tx.entities, tx.history, Some(child))
    requires ParentKey(instance.link) in tx.entities
    requires ParentWaits(reg, tx, child, childState, instance, target, end,
                         RootOf(ParentKey(instance.link), tx.entities[ParentKey(instance.link)]))
    ensures instance.link.machine in reg
    ensures Follows(CompleteParent(reg, tx, trig, child, childState, instance, target, end), tx.entities.Keys,
                    ParentPlan(reg, tx.entities, instance.link, target))
    decreases ActiveKeys(tx.entities), 1
  {
    var link := instance.link;
    var parent := tx.entities[ParentKey(link)];
    AdvanceReady(reg, tx, trig, child, childState, instance, target, end);
    var tx1 := tx.(events := tx.events + [Finished(child, instance.depth, link, end, target, None)]);
    var cause := AdvanceCause(trig, link, EntryOf(parent, link.region), child, childState, end);
    WriteFollows(reg, tx1, trig, ParentKey(link), parent,
                 AdvanceSpec(reg[link.machine], parent, link.region, link.state, target, trig.timestamp, cause));
  }

  /** On the tree of an accepted root a ready write succeeds exactly when the plan of its cascade fits,
      and creates exactly the plan. */
  lemma WriteExact(reg: Registry, tx: Tx, trig: Trigger, key: Key, e: Entity, spec: WriteSpec)
    requires WriteReady(reg, tx, trig.now, key, e, spec) && AcceptedRoot(reg, RootOf(key, e).machine)
    ensures key.machine in reg
    ensures var r, plan := TxOf(WriteEntity(reg, tx, trig, key, e, spec)), SpecPlan(reg, tx.entities, key, spec);
            && (r.Ok? <==> Fits(tx.entities.Keys, plan))
            && (r.Ok? ==> r.value.entities.Keys == tx.entities.Keys + Planned(plan))
            && (r.Err? ==> r.error == InstanceConflict)
  {
    WriteFollows(reg, tx, trig, key, e, spec);
    WriteRefusal(reg, tx, trig, key, e, spec);
  }
}
