/** The registration-time check of managed references: an explicit-stack search that accepts exactly
    the definitions whose trees cannot be refused a start for nesting, a missing machine or a rule. */
module Nesting {
  import opened Names
  import opened Models
  import opened EngineSteps
  import opened Store
  import opened Lifecycle
  import opened Ledger
  import opened Tree
  import opened CascadeProofs

  // ---------------------------------------------------------------- references

  /** The managed ones among the sub-machines of some states. */
  function ManagedOf(subs: map<string, SubMachine>, states: seq<string>): seq<SubMachine>
    requires forall s :: s in states ==> s in subs
  {
    if states == [] then []
    else
      var rest := ManagedOf(subs, states[1..]);
      if subs[states[0]].managed then [subs[states[0]]] + rest else rest
  }

  function RegionRefs(regions: seq<RegionDef>): seq<SubMachine> {
    if regions == [] then []
    else ManagedOf(regions[0].subs, SortedKeys(regions[0].subs.Keys)) + RegionRefs(regions[1..])
  }

  /** What the search walks along: the managed sub-machines of the machine's own states, then those of
      its regions. */
  function ManagedRefs(m: Machine): seq<SubMachine> {
    ManagedOf(m.subs, SortedKeys(m.subs.Keys)) + RegionRefs(m.regions)
  }

  lemma {:induction false} ManagedOfHas(subs: map<string, SubMachine>, states: seq<string>, s: string)
    requires forall s :: s in states ==> s in subs
    requires s in states && subs[s].managed
    ensures subs[s] in ManagedOf(subs, states)
    decreases |states|
  {
    if states[0] != s {
      ManagedOfHas(subs, states[1..], s);
    }
  }

  lemma {:induction false} RegionRefsHas(regions: seq<RegionDef>, region: string, state: string)
    requires var r := FindRegion(regions, region); r.Some? && state in r.value.subs && r.value.subs[state].managed
    ensures FindRegion(regions, region).value.subs[state] in RegionRefs(regions)
    decreases |regions|
  {
    if regions[0].id == region {
      ManagedOfHas(regions[0].subs, SortedKeys(regions[0].subs.Keys), state);
    } else {
      RegionRefsHas(regions[1..], region, state);
    }
  }

  /** A managed compound state is one of the machine's references. */
  lemma ManagedSubIsRef(m: Machine, region: string, state: string)
    requires m.ManagedSub(region, state).Some?
    ensures m.ManagedSub(region, state).value in ManagedRefs(m)
  {
    if m.IsParallel() {
      RegionRefsHas(m.regions, region, state);
    } else {
      ManagedOfHas(m.subs, SortedKeys(m.subs.Keys), state);
    }
  }

  // ---------------------------------------------------------------- walks

  /** A chain of managed references from `m` through registered machines. */
  ghost predicate Walk(reg: Registry, m: Machine, walk: seq<SubMachine>)
    decreases |walk|
  {
    walk == [] || (
      && walk[0] in ManagedRefs(m)
      && (|walk| > 1 ==> walk[0].machineId in reg && Walk(reg, reg[walk[0].machineId], walk[1..])))
  }

  function Ids(walk: seq<SubMachine>): (ids: seq<string>)
    ensures |ids| == |walk| && forall i :: 0 <= i < |walk| ==> ids[i] == walk[i].machineId
  {
    seq(|walk|, i requires 0 <= i < |walk| => walk[i].machineId)
  }

  /** The last reference repeats no machine, is not too deep, and its rules fit. */
  ghost predicate LastOk(reg: Registry, chain: seq<string>, walk: seq<SubMachine>)
    requires walk != []
  {
    var n := |walk| - 1;
    && walk[n].machineId !in chain + Ids(walk[..n])
    && |chain| + n <= MAX_MANAGED_DEPTH
    && (walk[n].machineId in reg ==> RulesFit(walk[n], reg[walk[n].machineId]))
  }

  /** No chain of managed references repeats a machine or is longer than the bound, and every rule
      fits its child. `chain` is how the machine was reached. */
  ghost predicate AcceptableFrom(reg: Registry, m: Machine, chain: seq<string>) {
    forall walk {:trigger Walk(reg, m, walk)} :: walk != [] && Walk(reg, m, walk) ==> LastOk(reg, chain, walk)
  }

  ghost predicate Acceptable(reg: Registry, m: Machine) {
    AcceptableFrom(reg, m, [m.id])
  }

  // ---------------------------------------------------------------- the search, as recursion

  /** One reference of a machine reached by `chain`. */
  predicate RefOk(reg: Registry, sub: SubMachine, chain: seq<string>) {
    && sub.machineId !in chain
    && |chain| <= MAX_MANAGED_DEPTH
    && (sub.machineId in reg ==> RulesFit(sub, reg[sub.machineId]))
  }

  predicate Good(reg: Registry, m: Machine, chain: seq<string>)
    decreases MAX_MANAGED_DEPTH + 1 - |chain|, 1, 0
  {
    GoodRefs(reg, ManagedRefs(m), chain)
  }

  predicate GoodRefs(reg: Registry, refs: seq<SubMachine>, chain: seq<string>)
    decreases MAX_MANAGED_DEPTH + 1 - |chain|, 0, |refs|
  {
    refs == [] || (
      && RefOk(reg, refs[0], chain)
      && (refs[0].machineId in reg ==> Good(reg, reg[refs[0].machineId], chain + [refs[0].machineId]))
      && GoodRefs(reg, refs[1..], chain))
  }

  lemma {:induction false} GoodRefsAll(reg: Registry, refs: seq<SubMachine>, chain: seq<string>, sub: SubMachine)
    requires GoodRefs(reg, refs, chain) && sub in refs
    ensures RefOk(reg, sub, chain)
    ensures sub.machineId in reg ==> Good(reg, reg[sub.machineId], chain + [sub.machineId])
    decreases |refs|
  {
    if refs[0] != sub {
      GoodRefsAll(reg, refs[1..], chain, sub);
    }
  }

  lemma IdsCons(walk: seq<SubMachine>, chain: seq<string>)
    requires |walk| > 1
    ensures chain + Ids(walk[..|walk| - 1]) == chain + [walk[0].machineId] + Ids(walk[1..][..|walk| - 2])
  {
  }

  lemma {:induction false} GoodIsAcceptable(reg: Registry, m: Machine, chain: seq<string>, walk: seq<SubMachine>)
    requires Good(reg, m, chain) && walk != [] && Walk(reg, m, walk)
    ensures LastOk(reg, chain, walk)
    decreases |walk|
  {
    GoodRefsAll(reg, ManagedRefs(m), chain, walk[0]);
    if |walk| == 1 {
      assert chain + Ids(walk[..0]) == chain;
    } else {
      GoodIsAcceptable(reg, reg[walk[0].machineId], chain + [walk[0].machineId], walk[1..]);
      IdsCons(walk, chain);
    }
  }

  lemma {:induction false} AcceptableIsGood(reg: Registry, m: Machine, chain: seq<string>)
    requires AcceptableFrom(reg, m, chain)
    ensures Good(reg, m, chain)
    decreases MAX_MANAGED_DEPTH + 1 - |chain|, 1, 0
  {
    AcceptableRefsGood(reg, m, ManagedRefs(m), chain);
  }

  lemma {:induction false} AcceptableRefsGood(reg: Registry, m: Machine, refs: seq<SubMachine>, chain: seq<string>)
    requires AcceptableFrom(reg, m, chain)
    requires forall sub :: sub in refs ==> sub in ManagedRefs(m)
    ensures GoodRefs(reg, refs, chain)
    decreases MAX_MANAGED_DEPTH + 1 - |chain|, 0, |refs|
  {
    if refs != [] {
      var sub := refs[0];
      assert Walk(reg, m, [sub]);
      assert chain + Ids([sub][..0]) == chain;
      if sub.machineId in reg {
        AcceptableChild(reg, m, sub, chain);
        AcceptableIsGood(reg, reg[sub.machineId], chain + [sub.machineId]);
      }
      AcceptableRefsGood(reg, m, refs[1..], chain);
    }
  }

  lemma AcceptableChild(reg: Registry, m: Machine, sub: SubMachine, chain: seq<string>)
    requires AcceptableFrom(reg, m, chain) && sub in ManagedRefs(m) && sub.machineId in reg
    ensures AcceptableFrom(reg, reg[sub.machineId], chain + [sub.machineId])
  {
    forall walk | walk != [] && Walk(reg, reg[sub.machineId], walk) ensures LastOk(reg, chain + [sub.machineId], walk) {
      var longer := [sub] + walk;
      assert longer[1..] == walk;
      assert Walk(reg, m, longer);
      assert LastOk(reg, chain, longer);
      IdsCons(longer, chain);
    }
  }

  /** The recursive search decides acceptability. */
  lemma GoodIffAcceptable(reg: Registry, m: Machine)
    ensures Good(reg, m, [m.id]) <==> Acceptable(reg, m)
  {
    if Good(reg, m, [m.id]) {
      forall walk | walk != [] && Walk(reg, m, walk) ensures LastOk(reg, [m.id], walk) {
        GoodIsAcceptable(reg, m, [m.id], walk);
      }
    }
    if Acceptable(reg, m) {
      AcceptableIsGood(reg, m, [m.id]);
    }
  }

  // ---------------------------------------------------------------- the search, with a stack

  datatype Item = Item(machine: Machine, chain: seq<string>)

  /** Machines the search visits below this one, itself included. */
  ghost function Size(reg: Registry, m: Machine, chain: seq<string>): nat
    decreases MAX_MANAGED_DEPTH + 1 - |chain|, 1, 0
  {
    1 + SizeRefs(reg, ManagedRefs(m), chain)
  }

  ghost function SizeRefs(reg: Registry, refs: seq<SubMachine>, chain: seq<string>): nat
    decreases MAX_MANAGED_DEPTH + 1 - |chain|, 0, |refs|
  {
    if refs == [] then 0
    else
      SizeRefs(reg, refs[1..], chain) +
      if RefOk(reg, refs[0], chain) && refs[0].machineId in reg then
        Size(reg, reg[refs[0].machineId], chain + [refs[0].machineId])
      else 0
  }

  ghost function StackSize(reg: Registry, stack: seq<Item>): nat {
    if stack == [] then 0
    else StackSize(reg, stack[..|stack| - 1]) + Size(reg, stack[|stack| - 1].machine, stack[|stack| - 1].chain)
  }

  ghost predicate AllGood(reg: Registry, stack: seq<Item>) {
    forall i :: 0 <= i < |stack| ==> Good(reg, stack[i].machine, stack[i].chain)
  }

  lemma Pushed(reg: Registry, stack: seq<Item>, item: Item)
    ensures AllGood(reg, stack + [item]) <==> AllGood(reg, stack) && Good(reg, item.machine, item.chain)
    ensures StackSize(reg, stack + [item]) == StackSize(reg, stack) + Size(reg, item.machine, item.chain)
  {
    assert (stack + [item])[..|stack|] == stack;
    if AllGood(reg, stack + [item]) {
      assert (stack + [item])[|stack|] == item;
      forall i | 0 <= i < |stack| ensures Good(reg, stack[i].machine, stack[i].chain) {
        assert (stack + [item])[i] == stack[i];
      }
    }
  }

  /** What is left to do: the stack's machines and the references `refs` of one more. */
  ghost predicate AllLeftGood(reg: Registry, stack: seq<Item>, refs: seq<SubMachine>, chain: seq<string>) {
    AllGood(reg, stack) && GoodRefs(reg, refs, chain)
  }

  ghost function LeftSize(reg: Registry, stack: seq<Item>, refs: seq<SubMachine>, chain: seq<string>): nat {
    StackSize(reg, stack) + SizeRefs(reg, refs, chain)
  }

  /** A good reference moves from the list to the stack, if it is registered. */
  lemma RefMoves(reg: Registry, stack: seq<Item>, refs: seq<SubMachine>, chain: seq<string>)
    requires refs != [] && RefOk(reg, refs[0], chain)
    ensures var id := refs[0].machineId;
            var stack' := if id in reg then stack + [Item(reg[id], chain + [id])] else stack;
            && (AllLeftGood(reg, stack, refs, chain) <==> AllLeftGood(reg, stack', refs[1..], chain))
            && LeftSize(reg, stack, refs, chain) == LeftSize(reg, stack', refs[1..], chain)
            && (GoodRefs(reg, refs, chain) ==> GoodRefs(reg, refs[1..], chain))
  {
    if refs[0].machineId in reg {
      Pushed(reg, stack, Item(reg[refs[0].machineId], chain + [refs[0].machineId]));
    }
  }

  /** One machine's references: refuse a bad one, push the registered ones. */
  method PushRefs(reg: Registry, current: Item, stack: seq<Item>) returns (ok: bool, pushed: seq<Item>)
    ensures var refs := ManagedRefs(current.machine);
            && (!ok ==> !GoodRefs(reg, refs, current.chain))
            && (ok ==> (AllGood(reg, pushed) <==> AllGood(reg, stack) && GoodRefs(reg, refs, current.chain)))
            && (ok ==> StackSize(reg, pushed) == StackSize(reg, stack) + SizeRefs(reg, refs, current.chain))
  {
    var refs, chain := ManagedRefs(current.machine), current.chain;
    pushed := stack;
    ok := false;
    var i := 0;
    assert refs[0..] == refs;
    while i < |refs|
      invariant 0 <= i <= |refs|
      invariant GoodRefs(reg, refs, chain) ==> GoodRefs(reg, refs[i..], chain)
      invariant AllLeftGood(reg, pushed, refs[i..], chain) <==> AllLeftGood(reg, stack, refs, chain)
      invariant LeftSize(reg, pushed, refs[i..], chain) == LeftSize(reg, stack, refs, chain)
    {
      var sub := refs[i];
      assert refs[i..][0] == sub && refs[i..][1..] == refs[i + 1..];
      if sub.machineId in chain {
        return;
      }
      if |chain| > MAX_MANAGED_DEPTH {
        return;
      }
      if sub.machineId in reg {
        var fits := CheckRulesAgainst(sub, reg[sub.machineId]);
        if !fits {
          return;
        }
      }
      RefMoves(reg, pushed, refs[i..], chain);
      if sub.machineId in reg {
        pushed := pushed + [Item(reg[sub.machineId], chain + [sub.machineId])];
      }
      i := i + 1;
    }
    assert refs[|refs|..] == [];
    ok := true;
  }

  /** Depth-first search over the managed references; any bad reference refuses the definition. */
  method CheckManagedNesting(reg: Registry, machine: Machine) returns (ok: bool)
    ensures ok <==> Acceptable(reg, machine)
  {
    GoodIffAcceptable(reg, machine);
    var stack := [Item(machine, [machine.id])];
    Pushed(reg, [], stack[0]);
    assert [] + [stack[0]] == stack;
    while stack != []
      invariant Good(reg, machine, [machine.id]) <==> AllGood(reg, stack)
      decreases StackSize(reg, stack)
    {
      var current := stack[|stack| - 1];
      var popped := stack[..|stack| - 1];
      assert stack == popped + [current];
      Pushed(reg, popped, current);
      ok, stack := PushRefs(reg, current, popped);
      if !ok {
        return;
      }
    }
    ok := true;
  }

  // ---------------------------------------------------------------- what acceptance buys

  /** Every machine that a chain of references reaches is registered. */
  ghost predicate AllRegistered(reg: Registry, m: Machine) {
    forall walk: seq<SubMachine> {:trigger Walk(reg, m, walk)} ::
      walk != [] && Walk(reg, m, walk) ==> walk[|walk| - 1].machineId in reg
  }

  /** The path descends by managed references of the machines it names, down to `machine`. */
  ghost predicate PathOf(reg: Registry, root: string, path: seq<Step>, machine: string)
    decreases |path|
  {
    if path == [] then machine == root
    else
      var n := |path| - 1;
      && SubOf(reg, path[n]).Some?
      && SubOf(reg, path[n]).value.machineId == machine
      && PathOf(reg, root, path[..n], path[n].machine)
  }

  lemma {:induction false} WalkAppend(reg: Registry, m: Machine, walk: seq<SubMachine>, sub: SubMachine)
    requires Walk(reg, m, walk)
    requires walk != [] ==> walk[|walk| - 1].machineId in reg
    requires sub in ManagedRefs(if walk == [] then m else reg[walk[|walk| - 1].machineId])
    ensures Walk(reg, m, walk + [sub])
    decreases |walk|
  {
    if walk == [] {
      assert [] + [sub] == [sub];
    } else {
      assert (walk + [sub])[1..] == walk[1..] + [sub];
      if |walk| == 1 {
        assert walk[1..] == [];
        WalkAppend(reg, reg[walk[0].machineId], [], sub);
      } else {
        WalkAppend(reg, reg[walk[0].machineId], walk[1..], sub);
      }
    }
  }

  /** A path is a chain of references of its length, ending at its machine. */
  lemma {:induction false} PathWalk(
    reg: Registry, root: string, path: seq<Step>, machine: string) returns (walk: seq<SubMachine>)
    requires root in reg && PathOf(reg, root, path, machine) && AllRegistered(reg, reg[root])
    ensures |walk| == |path| && Walk(reg, reg[root], walk)
    ensures machine == if walk == [] then root else walk[|walk| - 1].machineId
    ensures machine in reg
    decreases |path|
  {
    if path == [] {
      walk := [];
    } else {
      var n := |path| - 1;
      var init := PathWalk(reg, root, path[..n], path[n].machine);
      var sub := SubOf(reg, path[n]).value;
      ManagedSubIsRef(reg[path[n].machine], path[n].region, path[n].state);
      WalkAppend(reg, reg[root], init, sub);
      walk := init + [sub];
    }
  }

  /** A live entity's path descends by references from its root's machine. */
  lemma {:induction false} LivePath(
    reg: Registry, entities: map<Key, Entity>, history: seq<Row>, hole: Option<Place>, key: Key)
    requires EntitiesOk(reg, entities, history) && TreeOk(reg, entities, hole)
    requires key in entities && entities[key].Live()
    ensures PathOf(reg, RootOf(key, entities[key]).machine, entities[key].Path(), key.machine)
    decreases |entities[key].Path()|
  {
    if entities[key].instance.Some? {
      var i := entities[key].instance.value;
      var parent := ParentKey(i.link);
      assert Up(reg, entities, key);
      assert EntityOkAt(reg, entities, history, key);
      RootOfParent(reg, entities, key);
      LivePath(reg, entities, history, hole, parent);
      assert i.Path()[..|i.above|] == i.above;
    }
  }

  /** One start below an accepted root is refused for nothing but a taken id. */
  lemma StartStep(reg: Registry, root: string, path: seq<Step>, parent: Key, region: string, state: string)
    requires root in reg && Acceptable(reg, reg[root]) && AllRegistered(reg, reg[root])
    requires WellFormedRegistry(reg) && PathOf(reg, root, path, parent.machine)
    requires parent.machine in reg && reg[parent.machine].ManagedSub(region, state).Some?
    ensures |path| + 1 <= MAX_MANAGED_DEPTH
    ensures var sub := reg[parent.machine].ManagedSub(region, state).value;
            sub.machineId in reg && RulesFit(sub, reg[sub.machineId])
  {
    var walk := PathWalk(reg, root, path, parent.machine);
    var sub := reg[parent.machine].ManagedSub(region, state).value;
    ManagedSubIsRef(reg[parent.machine], region, state);
    WalkAppend(reg, reg[root], walk, sub);
    assert LastOk(reg, [root], walk + [sub]);
  }

  /** With an accepted root definition whose references are all registered, the start of a managed
      child anywhere in its trees, and of everything below it, fails only with an instance conflict. */
  lemma {:induction false} AcceptedStarts(
    reg: Registry, root: string, tx: Tx, trig: Trigger, parent: Key, path: seq<Step>, region: string, state: string,
    entry: int)
    requires WellFormedRegistry(reg) && root in reg && Acceptable(reg, reg[root]) && AllRegistered(reg, reg[root])
    requires PathOf(reg, root, path, parent.machine)
    requires parent.machine in reg && reg[parent.machine].ManagedSub(region, state).Some?
    ensures var r := StartChild(reg, tx, trig, parent, path, region, state, entry);
            r.Err? ==> r.error == InstanceConflict
    decreases MAX_MANAGED_DEPTH + 1 - |path|, 1, 0
  {
    StartStep(reg, root, path, parent, region, state);
    var sub := reg[parent.machine].ManagedSub(region, state).value;
    var child := ChildKey(sub, parent.id, state);
    if child !in tx.entities {
      var link := Step(parent.machine, parent.id, region, state, entry);
      var states := reg[sub.machineId].InitialStates();
      var e := NewEntity(states, map[], trig.now, Some(Instance(Active, |path| + 1, path, link, 1, None)));
      var tx1 := tx.(entities := tx.entities[child := e], events := tx.events + [Started(child, |path| + 1, link)]);
      assert (path + [link])[..|path|] == path;
      AcceptedStartsBelow(reg, root, tx1, trig, child, path + [link], states, SortedKeys(states.Keys));
    }
  }

  lemma {:induction false} AcceptedStartsBelow(
    reg: Registry, root: string, tx: Tx, trig: Trigger, key: Key, path: seq<Step>, states: StateMap,
    regions: seq<string>)
    requires WellFormedRegistry(reg) && root in reg && Acceptable(reg, reg[root]) && AllRegistered(reg, reg[root])
    requires PathOf(reg, root, path, key.machine) && key.machine in reg
    requires forall r :: r in regions ==> r in states
    ensures var r := StartChildren(reg, tx, trig, key, path, states, regions);
            r.Err? ==> r.error == InstanceConflict
    decreases MAX_MANAGED_DEPTH + 1 - |path|, 2, |regions|
  {
    if regions != [] {
      if reg[key.machine].ManagedSub(regions[0], states[regions[0]]).Some? {
        AcceptedStarts(reg, root, tx, trig, key, path, regions[0], states[regions[0]], 1);
        var r := StartChild(reg, tx, trig, key, path, regions[0], states[regions[0]], 1);
        if r.Ok? {
          AcceptedStartsBelow(reg, root, r.value, trig, key, path, states, regions[1..]);
        }
      } else {
        AcceptedStartsBelow(reg, root, tx, trig, key, path, states, regions[1..]);
      }
    }
  }
}
