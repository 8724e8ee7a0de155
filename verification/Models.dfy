/** Machine definitions, entities and their managed-instance metadata. */
module Models {
  const DEFAULT_REGION := "_"

  /** No instance's path is longer than this. */
  const MAX_MANAGED_DEPTH: nat := 8

  type StateMap = map<string, string>
  type Params = map<string, string>
  type Context = map<string, string>

  datatype Option<+T> = None | Some(value: T)

  datatype Error =
    | MachineNotFound
    | EntityNotFound
    | BadRequest
    | Conflict
    | InstanceNotActive
    | TargetNotActive
    | EventIdentityConflict
    | InstanceConflict
    | NestingDepthExceeded
    | Internal

  datatype Result<+T> = Ok(value: T) | Err(error: Error) {
    predicate IsFailure() {
      Err?
    }

    function PropagateFailure<U>(): Result<U>
      requires Err?
    {
      Err(error)
    }

    function Extract(): T
      requires Ok?
    {
      value
    }
  }

  // ---------------------------------------------------------------- event types

  /** An event type name, decoded: the four names of the engine's own rows are constructors. */
  datatype EventType = External(name: string) | TimeoutEvent | JoinEvent | SubComplete | SubCancel

  function EventNamed(name: string): EventType {
    if name == "$timeout" then TimeoutEvent
    else if name == "$join" then JoinEvent
    else if name == "$sub_complete" then SubComplete
    else if name == "$sub_cancel" then SubCancel
    else External(name)
  }

  function EventName(t: EventType): string {
    match t
    case External(name) => name
    case TimeoutEvent => "$timeout"
    case JoinEvent => "$join"
    case SubComplete => "$sub_complete"
    case SubCancel => "$sub_cancel"
  }

  /** Decoding loses nothing: two names decode to the same event type only if they are equal. */
  lemma EventNamesDistinct(a: string, b: string)
    ensures EventName(EventNamed(a)) == a
    ensures EventNamed("$timeout") == TimeoutEvent && EventNamed("$join") == JoinEvent
    ensures EventNamed("$sub_complete") == SubComplete && EventNamed("$sub_cancel") == SubCancel
    ensures EventNamed(a) == EventNamed(b) ==> a == b
  {
    assert EventName(EventNamed(b)) == b;
  }

  // ---------------------------------------------------------------- definitions

  datatype CompletionRule = CompletionRule(when: StateMap, target: string)

  datatype SubMachine = SubMachine(
    machineId: string,
    onFinal: map<string, string>,
    managed: bool,
    completeWhen: seq<CompletionRule>)

  datatype RegionDef = RegionDef(
    id: string,
    states: seq<string>,
    initial: string,
    subs: map<string, SubMachine>)

  datatype JoinDef = JoinDef(when: StateMap, targetRegion: string, targetState: string)

  /** A guard is an arbitrary test of the event's params and the entity's context, except that a
      `timeout_seconds` guard is recognised as such (`None`: its value is not an integer). */
  datatype Guard =
    | NoGuard
    | TimeoutSeconds(seconds: Option<int>)
    | Condition(test: (Params, Context) -> bool)

  datatype Transition = Transition(
    from: string,
    to: string,
    on: EventType,
    region: Option<string>,
    guard: Guard)
  {
    /** Without a region of its own a transition is of the default one. */
    function Region(): string {
      if region.Some? then region.value else DEFAULT_REGION
    }
  }

  /** `actionStates` are the states that the definition's actions are attached to. */
  datatype Machine = Machine(
    id: string,
    states: seq<string>,
    initial: string,
    regions: seq<RegionDef>,
    joins: seq<JoinDef>,
    transitions: seq<Transition>,
    subs: map<string, SubMachine>,
    actionStates: seq<string>)
  {
    predicate IsParallel() {
      regions != []
    }

    /** Keys of every state map of this machine. */
    function RegionIds(): set<string> {
      if IsParallel() then set r | r in regions :: r.id else {DEFAULT_REGION}
    }

    function InitialStates(): StateMap {
      if IsParallel() then InitialRegionStates(regions) else map[DEFAULT_REGION := initial]
    }

    function SubMachineForState(state: string, region: string): Option<SubMachine> {
      if IsParallel() then
        match FindRegion(regions, region)
        case None => None
        case Some(r) => if state in r.subs then Some(r.subs[state]) else None
      else if state in subs then
        Some(subs[state])
      else
        None
    }

    /** `None` for a plain state, a legacy compound one, or a region that the machine does not have. */
    function ManagedSub(region: string, state: string): Option<SubMachine> {
      if !IsParallel() && region != DEFAULT_REGION then
        None
      else
        match SubMachineForState(state, region)
        case None => None
        case Some(sub) => if sub.managed then Some(sub) else None
    }
  }

  function FindRegion(regions: seq<RegionDef>, id: string): Option<RegionDef> {
    if regions == [] then None
    else if regions[0].id == id then Some(regions[0])
    else FindRegion(regions[1..], id)
  }

  /** Collected into a map in order: a later region of the same id would win. */
  function InitialRegionStates(regions: seq<RegionDef>): (m: StateMap)
    ensures m.Keys == set r | r in regions :: r.id
  {
    if regions == [] then map[]
    else
      var last := regions[|regions| - 1];
      var init := regions[..|regions| - 1];
      assert regions == init + [last];
      InitialRegionStates(init)[last.id := last.initial]
  }

  /** Where a child in these states sends its parent. `onFinal` speaks for a child of the default region
      alone; failing that, the rules are tried in order. */
  function CompletionTarget(sub: SubMachine, child: StateMap): Option<string> {
    if |child| == 1 && DEFAULT_REGION in child && child[DEFAULT_REGION] in sub.onFinal then
      Some(sub.onFinal[child[DEFAULT_REGION]])
    else
      FirstSatisfied(sub.completeWhen, child)
  }

  predicate RuleHolds(rule: CompletionRule, child: StateMap) {
    forall r :: r in rule.when ==> r in child && child[r] == rule.when[r]
  }

  function FirstSatisfied(rules: seq<CompletionRule>, child: StateMap): Option<string> {
    if rules == [] then None
    else if RuleHolds(rules[0], child) then Some(rules[0].target)
    else FirstSatisfied(rules[1..], child)
  }

  /** The states a child's rule may require, per region. */
  function RegionStates(child: Machine, region: string): seq<string> {
    if child.IsParallel() then
      match FindRegion(child.regions, region)
      case Some(r) => r.states
      case None => []
    else if region == DEFAULT_REGION then child.states else []
  }

  /** The rule's conditions are on all regions of `child` and no others, each on a state that the region
      has. */
  predicate RuleFits(rule: CompletionRule, child: Machine) {
    rule.when.Keys == child.RegionIds() &&
    forall r :: r in rule.when ==> rule.when[r] in RegionStates(child, r)
  }

  predicate RulesFit(sub: SubMachine, child: Machine) {
    forall rule :: rule in sub.completeWhen ==> RuleFits(rule, child)
  }

  // ---------------------------------------------------------------- entities

  datatype Key = Key(machine: string, id: string)

  datatype Status = Active | Completed | Cancelled

  /** An edge of the instance tree. `entry` tells apart two visits of one entity to one state. */
  datatype Step = Step(machine: string, entity: string, region: string, state: string, entry: int)

  /** What a row is known by: no entity has two rows with the same one. */
  datatype Identity =
    | EventId(eventType: EventType, timestamp: int)
    | TimeoutId(region: string, entry: int)
    | SubId(region: string, state: string, entry: int)
    | JoinId(region: string, entry: int, step: nat)
    | CancelId(entry: int)

  datatype RowRef = RowRef(row: nat, key: Identity)

  /** A path is never empty, so it is kept as the parent's path and the last step: the direct
      parent. Root first. */
  datatype Instance = Instance(
    status: Status,
    depth: nat,
    above: seq<Step>,
    link: Step,
    started: int,
    ended: Option<RowRef>)
  {
    function Path(): seq<Step> {
      above + [link]
    }
  }

  datatype Basis = Created | ByTransition | LegacyExact | LegacyUpperBound

  datatype RegionEntry = RegionEntry(
    state: string,
    entry: int,
    enteredAt: int,
    basis: Basis,
    origin: Option<RowRef>)

  datatype StoredEntries = StoredEntries(version: int, regions: map<string, RegionEntry>)

  datatype Entity = Entity(
    states: StateMap,
    context: Context,
    version: int,
    createdAt: int,
    updatedAt: int,
    entries: Option<StoredEntries>,
    instance: Option<Instance>)
  {
    /** The state column holds a JSON object unless the map is a single default region. */
    predicate IsParallelRow() {
      Encode(states).Object?
    }

    /** The path of a managed child; empty for a root. */
    function Path(): seq<Step> {
      if instance.Some? then instance.value.Path() else []
    }

    predicate IsActiveChild() {
      instance.Some? && instance.value.status == Active
    }

    /** Roots and active managed children take events and fire timers. */
    predicate Live() {
      instance.Some? ==> instance.value.status == Active
    }
  }

  /** The encoded state column. */
  datatype Encoded = Plain(state: string) | Object(states: StateMap)

  function Encode(states: StateMap): Encoded {
    if |states| == 1 && DEFAULT_REGION in states then Plain(states[DEFAULT_REGION])
    else Object(states)
  }

  function Decode(column: Encoded): StateMap {
    match column
    case Plain(state) => map[DEFAULT_REGION := state]
    case Object(states) => states
  }

  /** The column gives back the state map, and is a plain state exactly for a flat one. */
  lemma EncodeRoundTrip(states: StateMap)
    ensures Decode(Encode(states)) == states
    ensures Encode(states).Plain? <==> states.Keys == {DEFAULT_REGION}
  {
    assert |states| == |states.Keys|;
    if states.Keys == {DEFAULT_REGION} {
      assert |states| == 1;
    }
    if |states| == 1 && DEFAULT_REGION in states {
      var rest := states.Keys - {DEFAULT_REGION};
      assert |rest| == 0;
      assert states.Keys == rest + {DEFAULT_REGION};
    }
  }

  /** The column as text, given a printer of JSON objects: a flat state is written as it is. */
  function EncodeText(states: StateMap, toText: StateMap -> string): string {
    match Encode(states)
    case Plain(state) => state
    case Object(all) => toText(all)
  }

  /** Read back, given a parser: text that begins with a brace is parsed, and taken as a plain state
      if that fails. */
  function DecodeText(text: string, fromText: string -> Option<StateMap>): StateMap {
    if text != "" && text[0] == '{' && fromText(text).Some? then fromText(text).value else map[DEFAULT_REGION := text]
  }

  /** For a printer whose objects begin with a brace and a parser that reads them, the column gives back
      the state map exactly unless it is one plain state that parses as another map. */
  lemma TextRoundTrip(states: StateMap, toText: StateMap -> string, fromText: string -> Option<StateMap>)
    requires forall m {:trigger toText(m)} :: toText(m) != "" && toText(m)[0] == '{' && fromText(toText(m)) == Some(m)
    ensures DecodeText(EncodeText(states, toText), fromText) == states <==>
              (Encode(states).Plain? && states[DEFAULT_REGION] != "" && states[DEFAULT_REGION][0] == '{' ==>
                 fromText(states[DEFAULT_REGION]) in {None, Some(states)})
  {
    EncodeRoundTrip(states);
  }

  // ---------------------------------------------------------------- registry

  type Registry = map<string, Machine>

  function LoadMachine(reg: Registry, id: string): Result<Machine> {
    if id in reg then Ok(reg[id]) else Err(MachineNotFound)
  }

  predicate DistinctRegions(regions: seq<RegionDef>) {
    forall i, j :: 0 <= i < j < |regions| ==> regions[i].id != regions[j].id
  }

  predicate SubsManaged(subs: map<string, SubMachine>) {
    forall state :: state in subs ==> subs[state].managed
  }

  /** No compound state is a legacy one, whose child is created lazily. */
  predicate AllManaged(m: Machine) {
    if m.IsParallel() then forall r :: r in m.regions ==> SubsManaged(r.subs) else SubsManaged(m.subs)
  }

  /** What the model relies on about a registered definition. */
  predicate WellFormed(m: Machine) {
    && AllManaged(m)
    && (!m.IsParallel() ==> m.joins == [])
    && (forall r :: r in m.regions ==> r.id != "")
    && DistinctRegions(m.regions)
    && (forall j :: j in m.joins ==> j.targetRegion in m.RegionIds())
  }

  ghost predicate WellFormedRegistry(reg: Registry) {
    forall id :: id in reg ==> reg[id].id == id && WellFormed(reg[id])
  }
}
