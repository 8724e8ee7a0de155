/** Definitions are registered, replaced and removed one at a time, each checked against those there at
    that moment. What that keeps over any sequence of operations, and what it does not. */
module Registration {
  import opened Models
  import opened Nesting
  import opened Acceptance
  import opened Validation

  // ---------------------------------------------------------------- operations

  /** `inUse`: entities of the machine exist. */
  datatype Operation = Define(machine: Machine) | Replace(machine: Machine) | Remove(id: string, inUse: bool)

  ghost function Checked(reg: Registry, m: Machine): Result<()> {
    if Valid(m) && Acceptable(reg, m) then Ok(()) else Err(BadRequest)
  }

  ghost function Operated(reg: Registry, operation: Operation): Result<Registry> {
    match operation
    case Define(m) =>
      var _ :- Checked(reg, m);
      if m.id in reg then Err(Conflict) else Ok(reg[m.id := m])
    case Replace(m) =>
      var _ :- LoadMachine(reg, m.id);
      var _ :- Checked(reg, m);
      Ok(reg[m.id := m])
    case Remove(id, inUse) =>
      if inUse then Err(Conflict)
      else if id !in reg then Err(MachineNotFound)
      else Ok(reg - {id})
  }

  /** A refused operation changes nothing. */
  ghost function After(operations: seq<Operation>): Registry {
    if operations == [] then map[]
    else
      var reg := After(operations[..|operations| - 1]);
      match Operated(reg, operations[|operations| - 1])
      case Ok(reg') => reg'
      case Err(_) => reg
  }

  // ---------------------------------------------------------------- walks, in parts

  lemma {:induction false} WalkSplit(reg: Registry, m: Machine, walk: seq<SubMachine>, i: nat)
    requires Walk(reg, m, walk) && 0 < i < |walk|
    ensures Walk(reg, m, walk[..i]) && walk[i - 1].machineId in reg
    ensures Walk(reg, reg[walk[i - 1].machineId], walk[i..])
    decreases i
  {
    var rest := walk[1..];
    if i == 1 {
      assert walk[..1][1..] == [];
    } else {
      WalkSplit(reg, reg[walk[0].machineId], rest, i - 1);
      assert walk[..i][1..] == rest[..i - 1] && walk[i..] == rest[i - 1..];
    }
  }

  lemma {:induction false} WalkJoin(reg: Registry, m: Machine, a: seq<SubMachine>, b: seq<SubMachine>)
    requires a != [] && Walk(reg, m, a) && a[|a| - 1].machineId in reg
    requires Walk(reg, reg[a[|a| - 1].machineId], b)
    ensures Walk(reg, m, a + b)
    decreases |a|
  {
    var all, rest := a + b, a[1..];
    assert all[0] == a[0] && all[1..] == rest + b;
    if |a| == 1 {
      assert rest + b == b;
    } else {
      assert rest[|rest| - 1] == a[|a| - 1];
      WalkJoin(reg, reg[a[0].machineId], rest, b);
    }
  }

  /** A walk depends on the definitions it passes through only. */
  lemma {:induction false} WalkElsewhere(reg: Registry, reg': Registry, m: Machine, walk: seq<SubMachine>, id: string)
    requires Walk(reg', m, walk)
    requires forall k :: k in reg' && k != id ==> k in reg && reg[k] == reg'[k]
    requires forall i :: 0 <= i < |walk| - 1 ==> walk[i].machineId != id
    ensures Walk(reg, m, walk)
    decreases |walk|
  {
    if |walk| > 1 {
      WalkElsewhere(reg, reg', reg'[walk[0].machineId], walk[1..], id);
    }
  }

  // ---------------------------------------------------------------- no cycles

  ghost predicate Cycle(reg: Registry, id: string, walk: seq<SubMachine>) {
    id in reg && walk != [] && Walk(reg, reg[id], walk) && walk[|walk| - 1].machineId == id
  }

  ghost predicate NoCycles(reg: Registry) {
    forall id, walk {:trigger Cycle(reg, id, walk)} :: !Cycle(reg, id, walk)
  }

  lemma NeverBack(reg: Registry, m: Machine, walk: seq<SubMachine>)
    requires Acceptable(reg, m) && walk != [] && Walk(reg, m, walk)
    ensures walk[|walk| - 1].machineId != m.id
  {
    assert LastOk(reg, [m.id], walk);
    assert ([m.id] + Ids(walk[..|walk| - 1]))[0] == m.id;
  }

  /** A cycle through a machine comes back to it a first time. */
  lemma FirstReturn(reg: Registry, m: Machine, walk: seq<SubMachine>) returns (back: seq<SubMachine>)
    requires walk != [] && Walk(reg, m, walk) && walk[|walk| - 1].machineId == m.id
    ensures back != [] && Walk(reg, m, back) && back[|back| - 1].machineId == m.id
    ensures forall i :: 0 <= i < |back| - 1 ==> back[i].machineId != m.id
  {
    var i := FirstAt(walk, m.id);
    back := walk[..i + 1];
    if i + 1 < |walk| {
      WalkSplit(reg, m, walk, i + 1);
    } else {
      assert back == walk;
    }
  }

  /** The check sees that first return. */
  lemma NoCycleThrough(reg: Registry, m: Machine, walk: seq<SubMachine>)
    requires Acceptable(reg, m)
    ensures !Cycle(reg[m.id := m], m.id, walk)
  {
    if Cycle(reg[m.id := m], m.id, walk) {
      var back := FirstReturn(reg[m.id := m], m, walk);
      WalkElsewhere(reg, reg[m.id := m], m, back, m.id);
      NeverBack(reg, m, back);
      assert false;
    }
  }

  lemma {:induction false} FirstAt(walk: seq<SubMachine>, id: string) returns (i: nat)
    requires walk != [] && walk[|walk| - 1].machineId == id
    ensures i < |walk| && walk[i].machineId == id && forall j :: 0 <= j < i ==> walk[j].machineId != id
    decreases |walk|
  {
    if walk[0].machineId == id {
      i := 0;
    } else {
      var k := FirstAt(walk[1..], id);
      i := k + 1;
      assert forall j :: 0 < j < i ==> walk[j] == walk[1..][j - 1];
    }
  }

  /** A cycle may be entered at any of its machines. */
  lemma CycleTurned(reg: Registry, id: string, walk: seq<SubMachine>, i: nat)
    requires Cycle(reg, id, walk) && i < |walk| - 1
    ensures Cycle(reg, walk[i].machineId, walk[i + 1..] + walk[..i + 1])
  {
    WalkSplit(reg, reg[id], walk, i + 1);
    var b, a := walk[i + 1..], walk[..i + 1];
    assert b[|b| - 1] == walk[|walk| - 1];
    WalkJoin(reg, reg[walk[i].machineId], b, a);
    assert (b + a)[|b + a| - 1] == walk[i];
  }

  lemma AcceptedKeepsNoCycles(reg: Registry, m: Machine)
    requires NoCycles(reg) && Acceptable(reg, m)
    ensures NoCycles(reg[m.id := m])
  {
    var reg' := reg[m.id := m];
    forall id, walk: seq<SubMachine> ensures !Cycle(reg', id, walk) {
      if Cycle(reg', id, walk) {
        if exists i :: 0 <= i < |walk| && walk[i].machineId == m.id {
          var i :| 0 <= i < |walk| && walk[i].machineId == m.id;
          if i < |walk| - 1 {
            CycleTurned(reg', id, walk, i);
            NoCycleThrough(reg, m, walk[i + 1..] + walk[..i + 1]);
          } else {
            NoCycleThrough(reg, m, walk);
          }
        } else {
          assert !Cycle(reg, id, walk);
          WalkElsewhere(reg, reg', reg'[id], walk, m.id);
        }
      }
    }
  }

  lemma RemovalKeepsNoCycles(reg: Registry, id: string)
    requires NoCycles(reg)
    ensures NoCycles(reg - {id})
  {
    forall k, walk: seq<SubMachine> ensures !Cycle(reg - {id}, k, walk) {
      if Cycle(reg - {id}, k, walk) {
        assert !Cycle(reg, k, walk);
        WalkWithin(reg - {id}, reg, reg[k], walk);
      }
    }
  }

  lemma {:induction false} WalkWithin(reg: Registry, reg': Registry, m: Machine, walk: seq<SubMachine>)
    requires Walk(reg, m, walk) && forall k :: k in reg ==> k in reg' && reg'[k] == reg[k]
    ensures Walk(reg', m, walk)
    decreases |walk|
  {
    if |walk| > 1 {
      WalkWithin(reg, reg', reg[walk[0].machineId], walk[1..]);
    }
  }

  /** Whatever is registered, replaced and removed, in any order, managed references never form a cycle,
      although each check sees only the definitions of its moment. */
  lemma {:induction false} NeverCyclic(operations: seq<Operation>)
    ensures NoCycles(After(operations))
    ensures forall id :: id in After(operations) ==> After(operations)[id].id == id && Valid(After(operations)[id])
    decreases |operations|
  {
    if operations != [] {
      var before, last := operations[..|operations| - 1], operations[|operations| - 1];
      NeverCyclic(before);
      var reg := After(before);
      if Operated(reg, last).Ok? {
        match last
        case Define(m) => AcceptedKeepsNoCycles(reg, m);
        case Replace(m) => AcceptedKeepsNoCycles(reg, m);
        case Remove(id, _) => RemovalKeepsNoCycles(reg, id);
      }
    }
  }

  // ---------------------------------------------------------------- the registry, updated in place

  /** The registry becomes what the operation makes of it, or stays. */
  ghost predicate Becomes(before: Registry, operation: Operation, after: Registry, r: Result<()>) {
    match Operated(before, operation)
    case Ok(reg) => after == reg && r == Ok(())
    case Err(error) => after == before && r == Err(error)
  }

  class Definitions {
    var reg: Registry

    ghost predicate Valid()
      reads this
    {
      NoCycles(reg)
    }

    constructor ()
      ensures Valid() && reg == map[]
    {
      reg := map[];
    }

    method Check(m: Machine) returns (r: Result<()>)
      ensures r == Checked(reg, m)
    {
      var valid := Validate(m);
      if !valid {
        return Err(BadRequest);
      }
      var acceptable := CheckManagedNesting(reg, m);
      return if acceptable then Ok(()) else Err(BadRequest);
    }

    method CreateMachine(m: Machine) returns (r: Result<()>)
      requires Valid()
      modifies this
      ensures Valid() && Becomes(old(reg), Define(m), reg, r)
    {
      var _ :- Check(m);
      if m.id in reg {
        return Err(Conflict);
      }
      AcceptedKeepsNoCycles(reg, m);
      reg := reg[m.id := m];
      return Ok(());
    }

    method UpdateMachine(m: Machine) returns (r: Result<()>)
      requires Valid()
      modifies this
      ensures Valid() && Becomes(old(reg), Replace(m), reg, r)
    {
      var _ :- LoadMachine(reg, m.id);
      var _ :- Check(m);
      AcceptedKeepsNoCycles(reg, m);
      reg := reg[m.id := m];
      return Ok(());
    }

    method DeleteMachine(id: string, inUse: bool) returns (r: Result<()>)
      requires Valid()
      modifies this
      ensures Valid() && Becomes(old(reg), Remove(id, inUse), reg, r)
    {
      if inUse {
        return Err(Conflict);
      }
      if id !in reg {
        return Err(MachineNotFound);
      }
      RemovalKeepsNoCycles(reg, id);
      reg := reg - {id};
      return Ok(());
    }
  }

  // ---------------------------------------------------------------- what is left to check again

  /** The reference is not too deep, and its rules fit. */
  ghost predicate ShallowAndFit(reg: Registry, walk: seq<SubMachine>)
    requires walk != []
  {
    var last := walk[|walk| - 1];
    |walk| <= MAX_MANAGED_DEPTH && (last.machineId in reg ==> RulesFit(last, reg[last.machineId]))
  }

  lemma NoReturn(reg: Registry, id: string, walk: seq<SubMachine>, i: nat)
    requires NoCycles(reg) && id in reg && Walk(reg, reg[id], walk) && i < |walk| - 1
    ensures walk[i].machineId != walk[|walk| - 1].machineId
  {
    WalkSplit(reg, reg[id], walk, i + 1);
    var rest := walk[i + 1..];
    assert rest[|rest| - 1] == walk[|walk| - 1];
    assert !Cycle(reg, walk[i].machineId, rest);
  }

  lemma NoRepeat(reg: Registry, id: string, walk: seq<SubMachine>)
    requires NoCycles(reg) && id in reg && walk != [] && Walk(reg, reg[id], walk)
    ensures walk[|walk| - 1].machineId !in [id] + Ids(walk[..|walk| - 1])
  {
    var n := |walk| - 1;
    assert !Cycle(reg, id, walk);
    forall i | 0 <= i < n ensures walk[i].machineId != walk[n].machineId {
      NoReturn(reg, id, walk, i);
    }
  }

  ghost predicate AllShallowAndFit(reg: Registry, m: Machine) {
    forall walk {:trigger Walk(reg, m, walk)} :: walk != [] && Walk(reg, m, walk) ==> ShallowAndFit(reg, walk)
  }

  /** So a registered definition can only have become too deep, or a rule of its tree have stopped to fit. */
  lemma OnlyDepthOrRules(operations: seq<Operation>, id: string)
    requires id in After(operations)
    ensures var reg := After(operations);
            Acceptable(reg, reg[id]) <==> AllShallowAndFit(reg, reg[id])
  {
    NeverCyclic(operations);
    var reg := After(operations);
    var m := reg[id];
    forall walk: seq<SubMachine> | walk != [] && Walk(reg, m, walk)
      ensures LastOk(reg, [m.id], walk) <==> ShallowAndFit(reg, walk)
    {
      NoRepeat(reg, id, walk);
    }
    if AllShallowAndFit(reg, m) {
      forall walk: seq<SubMachine> | walk != [] && Walk(reg, m, walk) ensures LastOk(reg, [m.id], walk) {
      }
    }
    if Acceptable(reg, m) {
      forall walk: seq<SubMachine> | walk != [] && Walk(reg, m, walk) ensures ShallowAndFit(reg, walk) {
      }
    }
  }

  // ---------------------------------------------------------------- when no check has to be repeated

  ghost predicate Complete(reg: Registry, m: Machine) {
    Acceptable(reg, m) && AllRegistered(reg, m)
  }

  ghost predicate Extended(reg: Registry, reg': Registry) {
    forall id :: id in reg ==> id in reg' && reg'[id] == reg[id]
  }

  lemma RegisteredBelow(reg: Registry, m: Machine, sub: SubMachine)
    requires AllRegistered(reg, m) && sub in ManagedRefs(m)
    ensures sub.machineId in reg && AllRegistered(reg, reg[sub.machineId])
  {
    assert Walk(reg, m, [sub]) && [sub][0] == sub;
    forall walk: seq<SubMachine> | walk != [] && Walk(reg, reg[sub.machineId], walk)
      ensures walk[|walk| - 1].machineId in reg
    {
      var longer := [sub] + walk;
      assert longer[1..] == walk && Walk(reg, m, longer);
      assert longer[|longer| - 1] == walk[|walk| - 1];
    }
  }

  /** Where everything reached was registered, further definitions open no new walk. */
  lemma {:induction false} WalkWas(reg: Registry, reg': Registry, m: Machine, walk: seq<SubMachine>)
    requires AllRegistered(reg, m) && Extended(reg, reg') && Walk(reg', m, walk)
    ensures Walk(reg, m, walk)
    decreases |walk|
  {
    if walk != [] {
      RegisteredBelow(reg, m, walk[0]);
      if |walk| > 1 {
        WalkWas(reg, reg', reg[walk[0].machineId], walk[1..]);
      }
    }
  }

  /** Checked once everything is there, a definition stays accepted, whatever is defined after it. */
  lemma CompleteStays(reg: Registry, reg': Registry, m: Machine)
    requires Complete(reg, m) && Extended(reg, reg')
    ensures Complete(reg', m)
  {
    forall walk: seq<SubMachine> | walk != [] && Walk(reg', m, walk)
      ensures LastOk(reg', [m.id], walk) && walk[|walk| - 1].machineId in reg'
    {
      WalkWas(reg, reg', m, walk);
      assert walk[|walk| - 1].machineId in reg;
      assert LastOk(reg, [m.id], walk);
    }
  }

  ghost predicate AllComplete(reg: Registry) {
    forall id :: id in reg ==> Complete(reg, reg[id])
  }

  /** Each operation defines a machine whose references are there already. */
  ghost predicate ChildrenFirst(operations: seq<Operation>) {
    forall i {:trigger AfterChildren(operations, i)} :: 0 <= i < |operations| ==> AfterChildren(operations, i)
  }

  ghost predicate AfterChildren(operations: seq<Operation>, i: nat)
    requires i < |operations|
  {
    && operations[i].Define?
    && forall sub :: sub in ManagedRefs(operations[i].machine) ==> sub.machineId in After(operations[..i])
  }

  lemma ParentComplete(reg: Registry, m: Machine)
    requires AllComplete(reg) && Acceptable(reg, m)
    requires forall sub :: sub in ManagedRefs(m) ==> sub.machineId in reg
    ensures Complete(reg, m)
  {
    forall walk: seq<SubMachine> | walk != [] && Walk(reg, m, walk) ensures walk[|walk| - 1].machineId in reg {
      if |walk| > 1 {
        WalkSplit(reg, m, walk, 1);
        assert Complete(reg, reg[walk[0].machineId]);
        assert walk[1..][|walk[1..]| - 1] == walk[|walk| - 1];
      }
    }
  }

  /** Registered children first, every definition is accepted for good: no check has to be repeated. */
  lemma {:induction false} ChildrenFirstComplete(operations: seq<Operation>)
    requires ChildrenFirst(operations)
    ensures AllComplete(After(operations))
    decreases |operations|
  {
    if operations != [] {
      var n := |operations| - 1;
      var before := operations[..n];
      forall i | 0 <= i < n ensures AfterChildren(before, i) {
        assert AfterChildren(operations, i);
        assert before[i] == operations[i] && before[..i] == operations[..i];
      }
      ChildrenFirstComplete(before);
      assert AfterChildren(operations, n);
      var reg := After(before);
      if Operated(reg, operations[n]).Ok? {
        var m := operations[n].machine;
        ParentComplete(reg, m);
        var reg' := reg[m.id := m];
        forall id | id in reg' ensures Complete(reg', reg'[id]) {
          CompleteStays(reg, reg', reg'[id]);
        }
      }
    }
  }

  /** A definition without legacy compound states, and without joins if it is flat. */
  predicate Supported(m: Machine) {
    AllManaged(m) && (m.IsParallel() || m.joins == [])
  }

  /** Registered children first, no request on any tree can be refused for a missing machine, a rule or
      the depth (`AcceptedRequests`). */
  lemma ChildrenFirstAccepted(operations: seq<Operation>, root: string)
    requires ChildrenFirst(operations) && root in After(operations)
    requires forall id :: id in After(operations) ==> Supported(After(operations)[id])
    ensures AcceptedRoot(After(operations), root)
  {
    ChildrenFirstComplete(operations);
    NeverCyclic(operations);
    var reg := After(operations);
    forall id | id in reg ensures WellFormed(reg[id]) {
      ValidIsWellFormed(reg[id]);
    }
  }

  // ---------------------------------------------------------------- accepted, one by one

  ghost predicate AcceptedAt(operations: seq<Operation>, i: nat)
    requires i < |operations|
  {
    Operated(After(operations[..i]), operations[i]).Ok?
  }

  ghost predicate AllAccepted(operations: seq<Operation>) {
    forall i {:trigger AcceptedAt(operations, i)} :: 0 <= i < |operations| ==> AcceptedAt(operations, i)
  }

  /** The operations are all accepted, one after the other, and lead to `reg`. */
  ghost predicate LeadsTo(operations: seq<Operation>, reg: Registry) {
    AllAccepted(operations) && After(operations) == reg
  }

  lemma OneMoreAccepted(operations: seq<Operation>, reg: Registry, operation: Operation)
    requires LeadsTo(operations, reg) && Operated(reg, operation).Ok?
    ensures LeadsTo(operations + [operation], Operated(reg, operation).value)
  {
    var longer := operations + [operation];
    assert longer[..|longer| - 1] == operations;
    forall i | 0 <= i < |longer| ensures AcceptedAt(longer, i) {
      if i < |operations| {
        assert AcceptedAt(operations, i);
        assert longer[..i] == operations[..i] && longer[i] == operations[i];
      }
    }
  }
}
