/** The pure engine: transition evaluation, joins, region entries and timers. */
module Engine {
  import opened Models

  const CHILD_MARK: string := "::sub::"

  /** The parent's id, a mark and the state. Different pairs can give one id: see `ChildIdsCollide`. */
  function ChildEntityId(parent: string, state: string): (id: string)
    ensures |id| > |parent|
  {
    parent + CHILD_MARK + state
  }

  // ---------------------------------------------------------------- evaluation

  /** A `timeout_seconds` guard never passes here: the scheduler evaluates it. */
  predicate GuardPasses(guard: Guard, params: Params, context: Context) {
    match guard
    case NoGuard => true
    case TimeoutSeconds(_) => false
    case Condition(test) => test(params, context)
  }

  predicate Enabled(t: Transition, states: StateMap, context: Context, eventType: EventType, params: Params) {
    && t.Region() in states
    && states[t.Region()] == t.from
    && t.on == eventType
    && GuardPasses(t.guard, params, context)
  }

  /** The first enabled transition, in definition order. */
  function Evaluate(
    transitions: seq<Transition>, states: StateMap, context: Context, eventType: EventType, params: Params)
    : Option<Transition>
  {
    if transitions == [] then None
    else if Enabled(transitions[0], states, context, eventType, params) then Some(transitions[0])
    else Evaluate(transitions[1..], states, context, eventType, params)
  }

  // ---------------------------------------------------------------- joins

  datatype JoinFired = JoinFired(targetRegion: string, from: string, targetState: string)

  function StateOr(states: StateMap, region: string, default: string): string {
    if region in states then states[region] else default
  }

  /** A join fires when all its regions match and its target region is elsewhere. */
  predicate JoinReady(j: JoinDef, states: StateMap) {
    && (forall r :: r in j.when ==> r in states && states[r] == j.when[r])
    && StateOr(states, j.targetRegion, "") != j.targetState
  }

  /** Every join ready on one snapshot of the state map. */
  function CheckJoins(joins: seq<JoinDef>, states: StateMap): seq<JoinFired> {
    if joins == [] then []
    else
      var rest := CheckJoins(joins[1..], states);
      var j := joins[0];
      if JoinReady(j, states) then
        [JoinFired(j.targetRegion, StateOr(states, j.targetRegion, ""), j.targetState)] + rest
      else
        rest
  }

  /** The state map after entering the fired joins' targets, in order. */
  function ApplyFired(states: StateMap, fired: seq<JoinFired>): StateMap {
    if fired == [] then states
    else ApplyFired(states, fired[..|fired| - 1])[fired[|fired| - 1].targetRegion := fired[|fired| - 1].targetState]
  }

  const JOIN_DEPTH: nat := 10

  /** Joins fired in passes, each pass evaluated on the map the previous one left. */
  function JoinCascade(joins: seq<JoinDef>, states: StateMap, depth: nat): seq<JoinFired>
    decreases depth
  {
    if depth == 0 || CheckJoins(joins, states) == [] then
      []
    else
      var pass := CheckJoins(joins, states);
      pass + JoinCascade(joins, ApplyFired(states, pass), depth - 1)
  }

  lemma {:induction false} ApplyFiredConcat(states: StateMap, a: seq<JoinFired>, b: seq<JoinFired>)
    ensures ApplyFired(states, a + b) == ApplyFired(ApplyFired(states, a), b)
    decreases |b|
  {
    if b == [] {
      assert a + b == a;
    } else {
      var init := b[..|b| - 1];
      assert (a + b)[..|a + b| - 1] == a + init;
      ApplyFiredConcat(states, a, init);
    }
  }

  predicate JoinsWithin(fired: seq<JoinFired>, regions: set<string>) {
    forall i :: 0 <= i < |fired| ==> fired[i].targetRegion in regions
  }

  lemma {:induction false} ApplyFiredKeys(states: StateMap, fired: seq<JoinFired>)
    requires JoinsWithin(fired, states.Keys)
    ensures ApplyFired(states, fired).Keys == states.Keys
    decreases |fired|
  {
    if fired != [] {
      ApplyFiredKeys(states, fired[..|fired| - 1]);
    }
  }

  lemma {:induction false} CheckJoinsWithin(joins: seq<JoinDef>, states: StateMap, regions: set<string>)
    requires forall j :: j in joins ==> j.targetRegion in regions
    ensures JoinsWithin(CheckJoins(joins, states), regions)
    decreases |joins|
  {
    if joins != [] {
      CheckJoinsWithin(joins[1..], states, regions);
      assert joins[0] in joins;
    }
  }

  lemma {:induction false} JoinCascadeWithin(joins: seq<JoinDef>, states: StateMap, depth: nat, regions: set<string>)
    requires forall j :: j in joins ==> j.targetRegion in regions
    ensures JoinsWithin(JoinCascade(joins, states, depth), regions)
    decreases depth
  {
    if depth > 0 {
      var pass := CheckJoins(joins, states);
      CheckJoinsWithin(joins, states, regions);
      JoinCascadeWithin(joins, ApplyFired(states, pass), depth - 1, regions);
    }
  }

  // ---------------------------------------------------------------- region entries

  function InitialEntries(states: StateMap, now: int): StoredEntries {
    StoredEntries(1, map r | r in states :: RegionEntry(states[r], 1, now, Created, None))
  }

  /** What the row alone says: its creation if nothing wrote it since, else its last update, which for a
      parallel row only bounds the entry from above. */
  function LegacyEntry(e: Entity, state: string): RegionEntry {
    var (enteredAt, basis) :=
      if e.version <= 1 && e.updatedAt == e.createdAt then (e.createdAt, Created)
      else if e.IsParallelRow() then (e.updatedAt, LegacyUpperBound)
      else (e.updatedAt, LegacyExact);
    RegionEntry(state, e.version, enteredAt, basis, None)
  }

  /** Trusts the stored document if its version is the row's and it has this region in this state;
      otherwise falls back on the row. */
  predicate HasStoredEntry(e: Entity, region: string) {
    && e.entries.Some?
    && e.entries.value.version == e.version
    && region in e.entries.value.regions
    && region in e.states
    && e.entries.value.regions[region].state == e.states[region]
  }

  function EntryOf(e: Entity, region: string): RegionEntry
    requires region in e.states
  {
    if HasStoredEntry(e, region) then e.entries.value.regions[region] else LegacyEntry(e, e.states[region])
  }

  /** One entry for each region the entity has. */
  function EffectiveEntries(e: Entity): map<string, RegionEntry> {
    map r | r in e.states :: EntryOf(e, r)
  }

  /** A write put `region` in `state`; `origin` is the history row that says so. */
  datatype Entered = Entered(region: string, state: string, origin: RowRef)

  /** Of several steps into `region`, the one with the highest index. */
  function LastEntered(entered: seq<Entered>, region: string): Option<Entered> {
    if entered == [] then None
    else if entered[|entered| - 1].region == region then Some(entered[|entered| - 1])
    else LastEntered(entered[..|entered| - 1], region)
  }

  function AdvancedEntry(
    previous: map<string, RegionEntry>, region: string, state: string, entered: seq<Entered>, version: int,
    now: int): RegionEntry
  {
    match LastEntered(entered, region)
    case Some(e) => RegionEntry(e.state, version, now, ByTransition, Some(e.origin))
    case None =>
      if region in previous && previous[region].state == state then previous[region]
      else RegionEntry(state, version, now, ByTransition, None)
  }

  /** Regions that were entered, or are in another state than before, get an entry numbered `version`;
      the others keep theirs. */
  function AdvanceEntries(
    previous: map<string, RegionEntry>, states: StateMap, entered: seq<Entered>, version: int,
    now: int): StoredEntries
  {
    StoredEntries(version, map r | r in states :: AdvancedEntry(previous, r, states[r], entered, version, now))
  }

  // ---------------------------------------------------------------- timers

  const I64_MAX: int := 0x7FFF_FFFF_FFFF_FFFF
  const I64_MIN: int := -0x8000_0000_0000_0000

  function SaturatingAdd(a: int, b: int): int {
    if a + b > I64_MAX then I64_MAX else if a + b < I64_MIN then I64_MIN else a + b
  }

  predicate TimeoutDue(entry: RegionEntry, timeoutMs: int, now: int) {
    SaturatingAdd(entry.enteredAt, timeoutMs) <= now
  }

  function TimeoutMs(guard: Guard): Option<int> {
    match guard
    case TimeoutSeconds(Some(s)) => Some(s * 1000)
    case _ => None
  }
}
