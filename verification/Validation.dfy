/** Validation of a definition at registration, and what it gives the rest of the model. */
module Validation {
  import opened Names
  import opened Models
  import opened Engine
  import opened Lifecycle
  import opened EngineSteps

  // ---------------------------------------------------------------- what a valid definition is

  /** Completion rules belong to managed children and lead to states of their owner. */
  predicate ShapeOk(sub: SubMachine, owner: seq<string>) {
    && (!sub.managed ==> sub.completeWhen == [])
    && forall rule :: rule in sub.completeWhen ==> rule.when != map[] && rule.target in owner
  }

  predicate SubOk(state: string, sub: SubMachine, owner: seq<string>) {
    && state in owner
    && (forall final :: final in sub.onFinal ==> sub.onFinal[final] in owner)
    && ShapeOk(sub, owner)
  }

  predicate SubsOk(subs: map<string, SubMachine>, owner: seq<string>) {
    forall state :: state in subs ==> SubOk(state, subs[state], owner)
  }

  predicate FlatOk(m: Machine) {
    && m.initial in m.states
    && (forall i :: 0 <= i < |m.transitions| ==> m.transitions[i].from in m.states && m.transitions[i].to in m.states)
    && (forall state :: state in m.actionStates ==> state in m.states)
    && SubsOk(m.subs, m.states)
    && (m.initial in m.subs ==> m.subs[m.initial].managed)
  }

  /** The state is not one of another region's. */
  predicate OnlyIn(regions: seq<RegionDef>, region: string, state: string) {
    forall o :: o in regions && o.id != region ==> state !in o.states
  }

  predicate RegionOk(regions: seq<RegionDef>, r: RegionDef) {
    && r.id != ""
    && r.initial in r.states
    && SubsOk(r.subs, r.states)
    && forall state :: state in r.subs && r.subs[state].managed ==> OnlyIn(regions, r.id, state)
  }

  /** A state that the definition gives to that region. */
  predicate Declared(m: Machine, region: string, state: string) {
    FindRegion(m.regions, region).Some? && state in FindRegion(m.regions, region).value.states
  }

  predicate JoinOk(m: Machine, j: JoinDef) {
    && (forall r :: r in j.when ==> Declared(m, r, j.when[r]))
    && Declared(m, j.targetRegion, j.targetState)
  }

  predicate TransitionOk(m: Machine, t: Transition) {
    t.region.Some? && Declared(m, t.region.value, t.from) && Declared(m, t.region.value, t.to)
  }

  predicate ParallelOk(m: Machine) {
    && DistinctRegions(m.regions)
    && (forall r :: r in m.regions ==> RegionOk(m.regions, r))
    && (forall i :: 0 <= i < |m.transitions| ==> TransitionOk(m, m.transitions[i]))
    && (forall j :: j in m.joins ==> JoinOk(m, j))
  }

  predicate Valid(m: Machine) {
    m.id != "" && if m.IsParallel() then ParallelOk(m) else FlatOk(m)
  }

  // ---------------------------------------------------------------- the validator

  method ValidateShape(sub: SubMachine, owner: seq<string>) returns (ok: bool)
    ensures ok <==> ShapeOk(sub, owner)
  {
    if !sub.managed && sub.completeWhen != [] {
      return false;
    }
    for i := 0 to |sub.completeWhen|
      invariant forall j :: 0 <= j < i ==> sub.completeWhen[j].when != map[] && sub.completeWhen[j].target in owner
    {
      var rule := sub.completeWhen[i];
      assert rule in sub.completeWhen;
      if rule.when == map[] {
        return false;
      }
      if rule.target !in owner {
        return false;
      }
    }
    return true;
  }

  /** One compound state; a legacy one may not be `initial`. */
  method ValidateSub(state: string, sub: SubMachine, owner: seq<string>, initial: Option<string>) returns (ok: bool)
    ensures ok <==> SubOk(state, sub, owner) && (initial == Some(state) ==> sub.managed)
  {
    if state !in owner {
      return false;
    }
    if initial == Some(state) && !sub.managed {
      return false;
    }
    var finals := SortedKeys(sub.onFinal.Keys);
    for i := 0 to |finals|
      invariant forall j :: 0 <= j < i ==> sub.onFinal[finals[j]] in owner
    {
      assert finals[i] in finals;
      if sub.onFinal[finals[i]] !in owner {
        return false;
      }
    }
    assert forall final :: final in sub.onFinal ==> final in finals;
    ok := ValidateShape(sub, owner);
  }

  method ValidateFlat(m: Machine) returns (ok: bool)
    ensures ok <==> FlatOk(m)
  {
    if m.states == [] {
      return false;
    }
    if m.initial !in m.states {
      return false;
    }
    for i := 0 to |m.transitions|
      invariant forall j :: 0 <= j < i ==> m.transitions[j].from in m.states && m.transitions[j].to in m.states
    {
      if m.transitions[i].from !in m.states {
        return false;
      }
      if m.transitions[i].to !in m.states {
        return false;
      }
    }
    for i := 0 to |m.actionStates|
      invariant forall j :: 0 <= j < i ==> m.actionStates[j] in m.states
    {
      if m.actionStates[i] !in m.states {
        return false;
      }
    }
    var compounds := SortedKeys(m.subs.Keys);
    for i := 0 to |compounds|
      invariant forall j :: 0 <= j < i ==> SubOk(compounds[j], m.subs[compounds[j]], m.states)
      invariant forall j :: 0 <= j < i && compounds[j] == m.initial ==> m.subs[m.initial].managed
    {
      var state := compounds[i];
      assert state in compounds;
      var fine := ValidateSub(state, m.subs[state], m.states, Some(m.initial));
      if !fine {
        return false;
      }
    }
    assert forall state :: state in m.subs ==> state in compounds;
    return true;
  }

  /** A child's id does not tell regions apart: no managed state may be in two of them. */
  method ValidateRegionSubs(m: Machine, r: RegionDef) returns (ok: bool)
    ensures ok <==> SubsOk(r.subs, r.states) && forall s :: s in r.subs && r.subs[s].managed ==>
              OnlyIn(m.regions, r.id, s)
  {
    var compounds := SortedKeys(r.subs.Keys);
    for i := 0 to |compounds|
      invariant forall j :: 0 <= j < i ==>
        SubOk(compounds[j], r.subs[compounds[j]], r.states) &&
            (r.subs[compounds[j]].managed ==> OnlyIn(m.regions, r.id, compounds[j]))
    {
      var state := compounds[i];
      assert state in compounds;
      var fine := ValidateSub(state, r.subs[state], r.states, None);
      if !fine {
        return false;
      }
      if r.subs[state].managed && exists o :: o in m.regions && o.id != r.id && state in o.states {
        return false;
      }
    }
    assert forall s :: s in r.subs ==> s in compounds;
    return true;
  }

  method ValidateRegions(m: Machine) returns (ok: bool)
    ensures ok <==> DistinctRegions(m.regions) && forall r :: r in m.regions ==> RegionOk(m.regions, r)
  {
    var seen: set<string> := {};
    for i := 0 to |m.regions|
      invariant seen == set j | 0 <= j < i :: m.regions[j].id
      invariant forall j, k :: 0 <= j < k < i ==> m.regions[j].id != m.regions[k].id
      invariant forall j :: 0 <= j < i ==> RegionOk(m.regions, m.regions[j])
    {
      var r := m.regions[i];
      assert r in m.regions;
      if r.id == "" {
        return false;
      }
      if r.id in seen {
        return false;
      }
      seen := seen + {r.id};
      if r.states == [] || r.initial !in r.states {
        return false;
      }
      var fine := ValidateRegionSubs(m, r);
      if !fine {
        return false;
      }
    }
    return true;
  }

  method ValidateParallel(m: Machine) returns (ok: bool)
    ensures ok <==> ParallelOk(m)
  {
    var regions := ValidateRegions(m);
    if !regions {
      return false;
    }
    for i := 0 to |m.transitions|
      invariant forall j :: 0 <= j < i ==> TransitionOk(m, m.transitions[j])
    {
      var t := m.transitions[i];
      if t.region.None? || !Declared(m, t.region.value, t.from) || !Declared(m, t.region.value, t.to) {
        return false;
      }
    }
    for i := 0 to |m.joins|
      invariant forall j :: 0 <= j < i ==> JoinOk(m, m.joins[j])
    {
      var j := m.joins[i];
      assert j in m.joins;
      var named := SortedKeys(j.when.Keys);
      for k := 0 to |named|
        invariant forall l :: 0 <= l < k ==> Declared(m, named[l], j.when[named[l]])
      {
        assert named[k] in named;
        if !Declared(m, named[k], j.when[named[k]]) {
          return false;
        }
      }
      assert forall r :: r in j.when ==> r in named;
      if !Declared(m, j.targetRegion, j.targetState) {
        return false;
      }
    }
    return true;
  }

  method Validate(m: Machine) returns (ok: bool)
    ensures ok <==> Valid(m)
  {
    if m.id == "" {
      return false;
    }
    if m.IsParallel() {
      ok := ValidateParallel(m);
    } else {
      ok := ValidateFlat(m);
    }
  }

  // ---------------------------------------------------------------- what validity gives

  lemma {:induction false} FoundRegion(regions: seq<RegionDef>, id: string)
    ensures FindRegion(regions, id).Some? ==>
              FindRegion(regions, id).value in regions && FindRegion(regions, id).value.id == id
    decreases |regions|
  {
    if regions != [] && regions[0].id != id {
      FoundRegion(regions[1..], id);
    }
  }

  /** A valid definition is what the model relies on, unless it has legacy compound states, which the
      model leaves out, or is flat and has joins, which the validator does not refuse. */
  lemma ValidIsWellFormed(m: Machine)
    requires Valid(m)
    ensures WellFormed(m) <==> AllManaged(m) && (m.IsParallel() || m.joins == [])
  {
    if m.IsParallel() {
      forall j | j in m.joins ensures j.targetRegion in m.RegionIds() {
        FoundRegion(m.regions, j.targetRegion);
      }
    }
  }

  /** In a valid definition, an entity's managed compound states have distinct children. */
  lemma SiblingsDistinct(m: Machine, parent: string, r1: string, s1: string, r2: string, s2: string)
    requires Valid(m) && m.ManagedSub(r1, s1).Some? && m.ManagedSub(r2, s2).Some?
    requires ChildKey(m.ManagedSub(r1, s1).value, parent, s1) == ChildKey(m.ManagedSub(r2, s2).value, parent, s2)
    ensures r1 == r2 && s1 == s2
  {
    ChildIdsOfOneParent(parent, s1, s2);
    if m.IsParallel() {
      FoundRegion(m.regions, r1);
      FoundRegion(m.regions, r2);
      var a, b := FindRegion(m.regions, r1).value, FindRegion(m.regions, r2).value;
      assert RegionOk(m.regions, a) && RegionOk(m.regions, b);
    }
  }

  /** The definition has that state in that region. */
  ghost predicate HasState(m: Machine, region: string, state: string) {
    if m.regions == [] then region == "_" && state in m.states
    else exists r :: r in m.regions && r.id == region && state in r.states
  }

  ghost predicate AllDeclared(m: Machine, states: StateMap) {
    forall region :: region in states ==> HasState(m, region, states[region])
  }

  lemma DeclaredIsHad(m: Machine, region: string, state: string)
    requires m.IsParallel() && Declared(m, region, state)
    ensures HasState(m, region, state)
  {
    FoundRegion(m.regions, region);
  }

  lemma {:induction false} FiredDeclared(m: Machine, states: StateMap, fired: seq<JoinFired>)
    requires AllDeclared(m, states)
    requires forall i :: 0 <= i < |fired| ==> HasState(m, fired[i].targetRegion, fired[i].targetState)
    ensures AllDeclared(m, ApplyFired(states, fired))
    decreases |fired|
  {
    if fired != [] {
      FiredDeclared(m, states, fired[..|fired| - 1]);
    }
  }

  lemma CascadeDeclared(m: Machine, states: StateMap)
    requires Valid(m) && (m.IsParallel() || m.joins == []) && AllDeclared(m, states)
    ensures AllDeclared(m, ApplyFired(states, JoinCascade(m.joins, states, JOIN_DEPTH)))
  {
    var fired := JoinCascade(m.joins, states, JOIN_DEPTH);
    forall i | 0 <= i < |fired| ensures HasState(m, fired[i].targetRegion, fired[i].targetState) {
      CascadeExplained(m.joins, states, JOIN_DEPTH, i);
      var p: nat, j :| p <= i && j in m.joins && FiredBy(j, fired[i], ApplyFired(states, fired[..p]));
      assert JoinOk(m, j);
      DeclaredIsHad(m, j.targetRegion, j.targetState);
    }
    FiredDeclared(m, states, fired);
  }

  /** In a valid definition an entity begins in declared states. */
  lemma BeginsDeclared(m: Machine)
    requires Valid(m)
    ensures AllDeclared(m, m.InitialStates())
  {
    InitialStatesBegin(m);
    if m.regions != [] {
      forall region | region in m.InitialStates() ensures HasState(m, region, m.InitialStates()[region]) {
        var i :| 0 <= i < |m.regions| && m.regions[i].id == region;
        assert m.regions[i] in m.regions && RegionOk(m.regions, m.regions[i]);
      }
    }
  }

  /** A transition with its joins leads to declared states again. */
  lemma MovesDeclared(m: Machine, states: StateMap, t: Transition)
    requires Valid(m) && (m.IsParallel() || m.joins == []) && AllDeclared(m, states)
    requires t in m.transitions && InSource(t, states)
    ensures var moved := states[t.Region() := t.to];
            AllDeclared(m, ApplyFired(moved, JoinCascade(m.joins, moved, JOIN_DEPTH)))
  {
    var i :| 0 <= i < |m.transitions| && m.transitions[i] == t;
    if m.IsParallel() {
      assert TransitionOk(m, m.transitions[i]);
      DeclaredIsHad(m, t.Region(), t.to);
    }
    assert HasState(m, t.Region(), t.to);
    CascadeDeclared(m, states[t.Region() := t.to]);
  }

  /** So does the completion of a managed child, whatever the states in which the child ended. */
  lemma AdvancesDeclared(
    m: Machine, states: StateMap, region: string, state: string, sub: SubMachine, child: StateMap, to: string)
    requires Valid(m) && (m.IsParallel() || m.joins == []) && AllDeclared(m, states)
    requires DeclaresChild(m, region, state, sub) && SendsTo(sub, child, to)
    ensures var moved := states[region := to];
            AllDeclared(m, ApplyFired(moved, JoinCascade(m.joins, moved, JOIN_DEPTH)))
  {
    if m.IsParallel() {
      var r :| r in m.regions && r.id == region && state in r.subs && r.subs[state] == sub;
      assert RegionOk(m.regions, r) && SubOk(state, sub, r.states);
    } else {
      assert SubOk(state, sub, m.states);
    }
    assert HasState(m, region, to);
    CascadeDeclared(m, states[region := to]);
  }
}
