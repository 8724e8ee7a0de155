/** What the code does not do: for each gap definitions and runs that reach it. The exact conditions are
    the lemmas named beside them. */
module Gaps {
  import opened Names
  import opened Models
  import opened Engine
  import opened EngineSteps
  import opened Store
  import opened Lifecycle
  import opened Tree
  import opened Requests
  import opened Runs
  import opened Growth
  import opened Guarantees
  import opened Timers
  import opened Validation
  import opened Services
  import opened LedgerProofs
  import opened Nesting
  import opened Registration

  // ---------------------------------------------------------------- creation, computed

  /** An entity with no managed initial state starts nothing. */
  lemma {:induction false} NothingStarts(
    reg: Registry, tx: Tx, trig: Trigger, key: Key, path: seq<Step>, states: StateMap, regions: seq<string>)
    requires key.machine in reg && forall r :: r in regions ==> r in states
    requires forall r :: r in regions ==> reg[key.machine].ManagedSub(r, states[r]).None?
    ensures StartChildren(reg, tx, trig, key, path, states, regions) == Ok(tx)
    decreases |regions|
  {
    if regions != [] {
      NothingStarts(reg, tx, trig, key, path, states, regions[1..]);
    }
  }

  /** The run begins with the creation of that root. */
  ghost predicate StartsWith(reg: Registry, run: seq<Served>, root: Key) {
    IsRun(reg, run) && |run| >= 1 && run[0].request == Create(root, map[], false, 0)
  }

  /** There are such runs, with any requests after it. */
  lemma RunsStart(reg: Registry, root: Key, later: seq<Request>)
    ensures StartsWith(reg, Run(reg, [Create(root, map[], false, 0)] + later), root)
  {
    RunIsRun(reg, [Create(root, map[], false, 0)] + later);
  }

  // ---------------------------------------------------------------- a parent that waits on a finished child

  const FINISHED: Machine := Machine("c", ["x"], "x", [], [], [], map[], [])

  const WAITING: Machine :=
    Machine("p", ["s", "t"], "s", [], [], [], map["s" := SubMachine("c", map["x" := "t"], true, [])], [])

  const WAITING_REGISTRY: Registry := map["c" := FINISHED, "p" := WAITING]

  const WAITING_ROOT: Key := Key("p", "r")

  lemma WaitingStarts()
    ensures ServeTx(WAITING_REGISTRY, EMPTY, Create(WAITING_ROOT, map[], false, 0)).Ok?
  {
    var reg, trig := WAITING_REGISTRY, Trigger(External("$create"), 0, 0);
    var states := WAITING.InitialStates();
    var tx1 := Begin(EMPTY).(entities := map[WAITING_ROOT := NewEntity(states, map[], 0, None)]);
    OneKey(DEFAULT_REGION);
    assert states.Keys == {DEFAULT_REGION} && states[DEFAULT_REGION] == "s";
    var sub := WAITING.ManagedSub(DEFAULT_REGION, "s").value;
    var child := ChildKey(sub, "r", "s");
    var link := Step("p", "r", DEFAULT_REGION, "s", 1);
    var initial := FINISHED.InitialStates();
    assert initial.Keys == {DEFAULT_REGION};
    var e := NewEntity(initial, map[], 0, Some(Instance(Active, 1, [], link, 1, None)));
    var tx2 := tx1.(entities := tx1.entities[child := e], events := tx1.events + [Started(child, 1, link)]);
    assert [] + [link] == [link];
    NothingStarts(reg, tx2, trig, child, [link], initial, [DEFAULT_REGION]);
    assert StartChild(reg, tx1, trig, WAITING_ROOT, [], DEFAULT_REGION, "s", 1) == Ok(tx2);
    assert [DEFAULT_REGION][1..] == [];
    assert StartChildren(reg, tx1, trig, WAITING_ROOT, [], states, [DEFAULT_REGION]) == Ok(tx2);
  }

  lemma WaitingDefinitions()
    ensures WellFormedRegistry(WAITING_REGISTRY) && Valid(FINISHED) && Valid(WAITING)
    ensures FinishedAtStart(WAITING_REGISTRY, WAITING.subs["s"])
  {
    assert forall state :: state in WAITING.subs ==> state == "s";
    assert SubOk("s", WAITING.subs["s"], WAITING.states);
    assert FINISHED.InitialStates() == map[DEFAULT_REGION := "x"];
  }

  /** After the creation the root is in its managed state, so its child is there, new and active. */
  lemma WaitingChild(reg: Registry, run: seq<Served>, root: Key, state: string) returns (child: Key)
    requires WellFormedRegistry(reg) && IsRun(reg, run) && |run| >= 1
    requires run[0].request.Create? && run[0].request.key == root && run[0].answer.Ok?
    requires root.machine in reg && reg[root.machine].regions == [] && reg[root.machine].initial == state
    requires reg[root.machine].ManagedSub(DEFAULT_REGION, state).Some?
    requires FinishedAtStart(reg, reg[root.machine].ManagedSub(DEFAULT_REGION, state).value)
    ensures Waits(reg, StoreAt(run, 1), child)
  {
    CreationAdds(reg, run, 0);
    var e := StoreAt(run, 1).entities[root];
    child := ChildOf(reg, root, e, DEFAULT_REGION);
    StepsAreKeys(reg, run, 1, root, DEFAULT_REGION);
    StartedWaits(reg, run, 0, child);
  }

  /** In every run that begins with this creation, of valid definitions, the parent waits on a finished
      child, as long as nothing writes the child. The exact condition for any child of any run is
      `NoMissedCompletion`. */
  lemma ParentWaits(run: seq<Served>, m: nat) returns (child: Key)
    requires StartsWith(WAITING_REGISTRY, run, WAITING_ROOT) && 1 <= m <= |run|
    ensures WellFormedRegistry(WAITING_REGISTRY) && Valid(FINISHED) && Valid(WAITING)
    ensures Waits(WAITING_REGISTRY, StoreAt(run, 1), child) && child in StoreAt(run, m).entities
    ensures Waits(WAITING_REGISTRY, StoreAt(run, m), child) <==>
              StoreAt(run, m).entities[child] == StoreAt(run, 1).entities[child]
  {
    WaitingDefinitions();
    WaitingStarts();
    assert ServedAt(WAITING_REGISTRY, run, 0);
    child := WaitingChild(WAITING_REGISTRY, run, WAITING_ROOT, "s");
    WaitsUntilWritten(WAITING_REGISTRY, run, 1, m, child);
  }

  // ---------------------------------------------------------------- a ready timer that no query finds

  const UNSEEN_TIMER: Transition :=
    Transition("a", "b", TimeoutEvent, Some(DEFAULT_REGION), TimeoutSeconds(Some(1)))

  /** Parallel, with one region of the default name. */
  const UNSEEN: Machine :=
    Machine("m", [], "", [RegionDef(DEFAULT_REGION, ["a", "b"], "a", map[])], [], [UNSEEN_TIMER], map[], [])

  const UNSEEN_REGISTRY: Registry := map["m" := UNSEEN]

  const UNSEEN_ROOT: Key := Key("m", "e")

  lemma UnseenDefinition()
    ensures WellFormedRegistry(UNSEEN_REGISTRY) && Valid(UNSEEN) && StoredAsFlat(UNSEEN)
    ensures UNSEEN.InitialStates() == map[DEFAULT_REGION := "a"]
    ensures TimerOf(UNSEEN_REGISTRY, "m", UNSEEN_TIMER, 1000)
    ensures UNSEEN.ManagedSub(DEFAULT_REGION, "a").None?
  {
    var regions := UNSEEN.regions;
    assert regions[..0] == [] && InitialRegionStates([]) == map[];
    assert FindRegion(regions, DEFAULT_REGION) == Some(regions[0]);
    assert forall r :: r in regions ==> r == regions[0];
    assert regions[0] in regions;
    assert UNSEEN.transitions[0] == UNSEEN_TIMER;
  }

  lemma UnseenStarts()
    ensures ServeTx(UNSEEN_REGISTRY, EMPTY, Create(UNSEEN_ROOT, map[], false, 0)).Ok?
  {
    UnseenDefinition();
    var states := UNSEEN.InitialStates();
    OneKey(DEFAULT_REGION);
    assert states.Keys == {DEFAULT_REGION};
    var tx1 := Begin(EMPTY).(entities := map[UNSEEN_ROOT := NewEntity(states, map[], 0, None)]);
    NothingStarts(UNSEEN_REGISTRY, tx1, Trigger(External("$create"), 0, 0), UNSEEN_ROOT, [], states, [DEFAULT_REGION]);
  }

  lemma UnseenIsReady(run: seq<Served>, now: int)
    requires StartsWith(UNSEEN_REGISTRY, run, UNSEEN_ROOT) && run[0].answer.Ok? && now >= 1000
    ensures var db := StoreAt(run, 1);
            UNSEEN_ROOT in db.entities && TimeoutReady(db.entities[UNSEEN_ROOT], DEFAULT_REGION, "a", 1000, now)
  {
    UnseenDefinition();
    CreationAdds(UNSEEN_REGISTRY, run, 0);
  }

  /** In every run that begins with this creation, of a valid definition with a timer, the timer is ready
      from its due time on, as long as nothing writes the entity, and at no point does the timer query
      return anything, whatever the cutoff. The exact condition is `PrefilterAgrees`. */
  lemma ReadyTimerUnseen(run: seq<Served>, m: nat, now: int, cutoff: int)
    requires StartsWith(UNSEEN_REGISTRY, run, UNSEEN_ROOT) && 1 <= m <= |run| && now >= 1000
    ensures WellFormedRegistry(UNSEEN_REGISTRY) && Valid(UNSEEN) && TimerOf(UNSEEN_REGISTRY, "m", UNSEEN_TIMER, 1000)
    ensures UNSEEN_ROOT in StoreAt(run, 1).entities && UNSEEN_ROOT in StoreAt(run, m).entities
    ensures StoreAt(run, m).entities[UNSEEN_ROOT] == StoreAt(run, 1).entities[UNSEEN_ROOT] ==>
              TimeoutReady(StoreAt(run, m).entities[UNSEEN_ROOT], UNSEEN_TIMER.Region(), UNSEEN_TIMER.from, 1000, now)
    ensures CandidateIds(UNSEEN_REGISTRY, StoreAt(run, m), "m", UNSEEN_TIMER, cutoff) == {}
  {
    UnseenDefinition();
    UnseenStarts();
    assert ServedAt(UNSEEN_REGISTRY, run, 0);
    UnseenIsReady(run, now);
    RunGrows(UNSEEN_REGISTRY, run, 1, m);
    assert KeptAt(StoreAt(run, 1).entities, StoreAt(run, m).entities, UNSEEN_ROOT);
    ReachableConsistent(UNSEEN_REGISTRY, run, m);
    StoredAsFlatUnseen(UNSEEN_REGISTRY, StoreAt(run, m), "m", UNSEEN_TIMER, cutoff);
  }

  // ---------------------------------------------------------------- joins of a flat machine

  /** On a flat machine an event fires joins and a timer does not: along one transition the two fire the
      same joins and lead to the same states exactly when no join is ready after it. */
  lemma FlatJoins(m: Machine, e: Entity, t: Transition, params: Params, trig: Trigger, timeoutMs: int)
    requires !m.IsParallel() && t.Region() in e.states
    ensures var event, timer := EventSpec(m, e, t, params, trig), TimeoutSpec(m, e, t, timeoutMs, trig.now);
            && timer.joins == [] && timer.newStates == e.states[t.Region() := t.to]
            && (event.joins == timer.joins && event.newStates == timer.newStates <==>
                  CheckJoins(m.joins, e.states[t.Region() := t.to]) == [])
  {
    var moved := e.states[t.Region() := t.to];
    var pass := CheckJoins(m.joins, moved);
    assert JoinCascade(m.joins, moved, JOIN_DEPTH) ==
             if pass == [] then [] else pass + JoinCascade(m.joins, ApplyFired(moved, pass), JOIN_DEPTH - 1);
  }

  const FLAT_JOIN: JoinDef := JoinDef(map[DEFAULT_REGION := "b"], DEFAULT_REGION, "c")

  const FLAT_EVENT: Transition := Transition("a", "b", External("go"), None, NoGuard)

  const FLAT: Machine :=
    Machine("f", ["a", "b", "c"], "a", [], [FLAT_JOIN], [FLAT_EVENT], map[], [])

  /** A valid flat definition with a join, on which an event ends in `c` and a timer along the same
      transition in `b`. */
  lemma FlatJoinsDiffer(e: Entity, params: Params, trig: Trigger, timeoutMs: int)
    requires e.states == map[DEFAULT_REGION := "a"]
    ensures Valid(FLAT) && !WellFormed(FLAT)
    ensures EventSpec(FLAT, e, FLAT_EVENT, params, trig).newStates == map[DEFAULT_REGION := "c"]
    ensures TimeoutSpec(FLAT, e, FLAT_EVENT, timeoutMs, trig.now).newStates == map[DEFAULT_REGION := "b"]
  {
    var b: StateMap := map[DEFAULT_REGION := "b"];
    var c: StateMap := map[DEFAULT_REGION := "c"];
    assert e.states[DEFAULT_REGION := "b"] == b && b[DEFAULT_REGION := "c"] == c;
    OneCondition(FLAT_JOIN, DEFAULT_REGION, "b", b);
    OneCondition(FLAT_JOIN, DEFAULT_REGION, "b", c);
    var fired := JoinFired(DEFAULT_REGION, "b", "c");
    assert FLAT.joins[1..] == [] && CheckJoins([], b) == [] && CheckJoins([], c) == [];
    assert CheckJoins(FLAT.joins, b) == [fired] && CheckJoins(FLAT.joins, c) == [];
    assert [fired][..0] == [] && ApplyFired(b, [fired]) == c;
    CascadeEnd(FLAT.joins, b, JOIN_DEPTH);
    CascadeEnd(FLAT.joins, c, JOIN_DEPTH - 1);
    FlatJoins(FLAT, e, FLAT_EVENT, params, trig, timeoutMs);
  }

  // ---------------------------------------------------------------- a definition that grew too deep

  function RungId(i: nat): (id: string)
    ensures |id| == i + 1
  {
    Link(i + 1)
  }

  function NextRung(i: nat): SubMachine {
    SubMachine(RungId(i + 1), map[], true, [])
  }

  /** The `i`th of a chain of `n + 1` flat machines: each but the last starts the next. */
  function Rung(i: nat, n: nat): Machine {
    Machine(RungId(i), ["s"], "s", [], [], [], if i < n then map["s" := NextRung(i)] else map[], [])
  }

  function Ladder(k: nat, n: nat): Registry {
    if k == 0 then map[] else Ladder(k - 1, n)[RungId(k - 1) := Rung(k - 1, n)]
  }

  lemma {:induction false} LadderIds(k: nat, n: nat, id: string)
    requires id in Ladder(k, n)
    ensures |id| <= k
    decreases k
  {
    if id != RungId(k - 1) {
      LadderIds(k - 1, n, id);
    }
  }

  lemma {:induction false} InLadder(i: nat, k: nat, n: nat)
    requires i < k
    ensures RungId(i) in Ladder(k, n) && Ladder(k, n)[RungId(i)] == Rung(i, n)
    decreases k
  {
    if i < k - 1 {
      InLadder(i, k - 1, n);
      assert |RungId(i)| != |RungId(k - 1)|;
    }
  }

  /** Its definitions, each before the one it starts. */
  function ParentsFirst(k: nat, n: nat): (operations: seq<Operation>)
    ensures |operations| == k
  {
    if k == 0 then [] else ParentsFirst(k - 1, n) + [Define(Rung(k - 1, n))]
  }

  lemma RungRefs(i: nat, n: nat)
    ensures ManagedRefs(Rung(i, n)) == if i < n then [NextRung(i)] else []
    ensures Valid(Rung(i, n)) && Supported(Rung(i, n))
  {
    var m := Rung(i, n);
    if i < n {
      OneKey("s");
      assert m.subs.Keys == {"s"};
      assert SubOk("s", m.subs["s"], m.states);
      assert ManagedOf(m.subs, ["s"]) == [NextRung(i)] by { assert ManagedOf(m.subs, ["s"][1..]) == []; }
    } else {
      assert m.subs.Keys == {};
    }
  }

  /** The next machine is not there yet, so there is nothing to check. */
  lemma RungAcceptable(k: nat, n: nat)
    ensures Acceptable(Ladder(k, n), Rung(k, n))
  {
    RungRefs(k, n);
    var reg, m := Ladder(k, n), Rung(k, n);
    if NextRung(k).machineId in reg {
      LadderIds(k, n, NextRung(k).machineId);
    }
    forall walk: seq<SubMachine> | walk != [] && Walk(reg, m, walk) ensures LastOk(reg, [m.id], walk) {
      assert walk[0] == NextRung(k);
      assert NextRung(k).machineId !in reg;
      assert |walk| == 1 && Ids(walk[..0]) == [];
      assert |walk[0].machineId| != |m.id|;
    }
  }

  lemma RungDefined(k: nat, n: nat)
    ensures Operated(Ladder(k, n), Define(Rung(k, n))) == Ok(Ladder(k + 1, n))
  {
    RungAcceptable(k, n);
    RungRefs(k, n);
    if RungId(k) in Ladder(k, n) {
      LadderIds(k, n, RungId(k));
    }
  }

  lemma {:induction false} LadderBuilt(k: nat, n: nat)
    ensures LeadsTo(ParentsFirst(k, n), Ladder(k, n))
    decreases k
  {
    if k > 0 {
      LadderBuilt(k - 1, n);
      RungDefined(k - 1, n);
      OneMoreAccepted(ParentsFirst(k - 1, n), Ladder(k - 1, n), Define(Rung(k - 1, n)));
    }
  }

  ghost predicate HasRung(reg: Registry, i: nat, n: nat) {
    RungId(i) in reg && reg[RungId(i)] == Rung(i, n)
  }

  ghost predicate HasRungs(reg: Registry, n: nat) {
    forall i: nat {:trigger HasRung(reg, i, n)} :: i <= n ==> HasRung(reg, i, n)
  }

  lemma LadderHasRungs(n: nat)
    ensures HasRungs(Ladder(n + 1, n), n)
  {
    var reg := Ladder(n + 1, n);
    forall i: nat {:trigger HasRung(reg, i, n)} | i <= n ensures HasRung(reg, i, n) {
      InLadder(i, n + 1, n);
    }
  }

  /** The references from the `i`th machine down to the `j`th. */
  function Descent(i: nat, j: nat): (walk: seq<SubMachine>)
    requires i <= j
    ensures |walk| == j - i
    decreases j - i
  {
    if i == j then [] else [NextRung(i)] + Descent(i + 1, j)
  }

  lemma {:induction false} DescentWalks(reg: Registry, i: nat, j: nat, n: nat)
    requires i <= j <= n && HasRungs(reg, n)
    ensures Walk(reg, Rung(i, n), Descent(i, j))
    decreases j - i
  {
    if i < j {
      RungRefs(i, n);
      assert HasRung(reg, i + 1, n);
      assert Descent(i, j)[0] == NextRung(i) && Descent(i, j)[1..] == Descent(i + 1, j);
      DescentWalks(reg, i + 1, j, n);
    }
  }

  lemma RungsTooDeep(reg: Registry, n: nat)
    requires n > 8 && HasRungs(reg, n)
    ensures HasRung(reg, 0, n) && !Acceptable(reg, Rung(0, n))
  {
    DescentWalks(reg, 0, n, n);
    assert !LastOk(reg, [RungId(0)], Descent(0, n));
  }

  /** Every walk from the `i`th machine goes down one by one. */
  lemma {:induction false} WalkDescends(reg: Registry, i: nat, n: nat, walk: seq<SubMachine>, k: nat)
    requires HasRungs(reg, n) && i <= n && Walk(reg, Rung(i, n), walk) && k < |walk|
    ensures i + k < n && walk[k] == NextRung(i + k)
    decreases |walk|
  {
    RungRefs(i, n);
    assert walk[0] == NextRung(i);
    if k > 0 {
      assert HasRung(reg, i + 1, n);
      WalkDescends(reg, i + 1, n, walk[1..], k - 1);
    }
  }

  /** With 8 levels or fewer it is acceptable. */
  lemma RungsShallow(reg: Registry, n: nat)
    requires n <= 8 && HasRungs(reg, n)
    ensures Acceptable(reg, Rung(0, n))
  {
    var m := Rung(0, n);
    forall walk: seq<SubMachine> | walk != [] && Walk(reg, m, walk) ensures LastOk(reg, [m.id], walk) {
      var k := |walk| - 1;
      WalkDescends(reg, 0, n, walk, k);
      forall i | 0 <= i < k ensures walk[i].machineId != walk[k].machineId {
        WalkDescends(reg, 0, n, walk, i);
        assert |walk[i].machineId| != |walk[k].machineId|;
      }
      assert |walk[k].machineId| != |m.id|;
    }
  }

  /** Registered parents first, each definition is accepted, but with more than 8 levels the first one is
      not acceptable any more once the last is there. */
  lemma ChainTooDeep(n: nat) returns (reg: Registry)
    requires n > 8
    ensures LeadsTo(ParentsFirst(n + 1, n), reg)
    ensures HasRungs(reg, n) && !Acceptable(reg, Rung(0, n))
  {
    reg := Ladder(n + 1, n);
    LadderBuilt(n + 1, n);
    LadderHasRungs(n);
    RungsTooDeep(reg, n);
  }

  /** No start from the `i`th machine succeeds. */
  lemma {:induction false} RungStart(
    reg: Registry, tx: Tx, trig: Trigger, parent: Key, path: seq<Step>, entry: int, n: nat)
    requires n > 8 && |path| <= MAX_MANAGED_DEPTH && parent.machine == RungId(|path|)
    requires HasRungs(reg, n) && HasRung(reg, |path|, n)
    ensures var r := StartChild(reg, tx, trig, parent, path, DEFAULT_REGION, "s", entry);
            && r.Err?
            && ((forall k :: k in tx.entities ==> |k.machine| <= |path| + 1) ==> r.error == NestingDepthExceeded)
    decreases MAX_MANAGED_DEPTH + 1 - |path|
  {
    assert Rung(|path|, n).ManagedSub(DEFAULT_REGION, "s") == Some(NextRung(|path|));
    if |path| < MAX_MANAGED_DEPTH {
      assert HasRung(reg, |path| + 1, n);
      var child := ChildKey(NextRung(|path|), parent.id, "s");
      if child !in tx.entities {
        var link := Step(parent.machine, parent.id, DEFAULT_REGION, "s", entry);
        var tx1 := StartedTx(tx, reg, child, path, link, trig.now);
        RungStart(reg, tx1, trig, child, path + [link], 1, n);
        OnlyStart(reg, tx1, trig, child, path + [link], |path| + 1, n);
      }
    }
  }

  /** A rung starts with what its one state starts with. */
  lemma OnlyStart(reg: Registry, tx: Tx, trig: Trigger, key: Key, path: seq<Step>, i: nat, n: nat)
    requires i < n && HasRung(reg, i, n) && key.machine == RungId(i)
    requires StartChild(reg, tx, trig, key, path, DEFAULT_REGION, "s", 1).Err?
    ensures StartChildren(reg, tx, trig, key, path, Rung(i, n).InitialStates(),
                          SortedKeys(Rung(i, n).InitialStates().Keys))
         == StartChild(reg, tx, trig, key, path, DEFAULT_REGION, "s", 1)
  {
    OneKey(DEFAULT_REGION);
    assert Rung(i, n).InitialStates().Keys == {DEFAULT_REGION};
    assert Rung(i, n).ManagedSub(DEFAULT_REGION, "s") == Some(NextRung(i));
  }

  /** So no root of the first definition can be created. */
  lemma DeepRootRefused(reg: Registry, n: nat, db: Db, request: Request)
    requires n > 8 && HasRungs(reg, n)
    requires request.Create? && request.key.machine == RungId(0) && request.key !in db.entities
    ensures ServeTx(reg, db, request).Err?
    ensures db.entities == map[] ==> ServeTx(reg, db, request).error == NestingDepthExceeded
  {
    assert HasRung(reg, 0, n);
    var e := NewEntity(Rung(0, n).InitialStates(), request.context, request.clock, None);
    var tx1 := Begin(db).(entities := db.entities[request.key := e]);
    RungStart(reg, tx1, TriggerOf(request), request.key, [], 1, n);
    OnlyStart(reg, tx1, TriggerOf(request), request.key, [], 0, n);
  }
}
