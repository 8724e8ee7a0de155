/** The API's steps and the timeout scheduler, over one database. Every step is one transaction on an
    object of its own: committed as a whole or dropped. */
module Services {
  import opened Names
  import opened Models
  import opened Engine
  import opened EngineSteps
  import opened Store
  import opened Lifecycle
  import opened Requests
  import opened Transactions
  import opened Delivery
  import opened Runs
  import opened Growth
  import opened Routing
  import opened Guarantees
  import opened Timers
  import opened Ledger

  // ---------------------------------------------------------------- what a tick did

  /** One step of an interleaving: the tick's own, or anyone else's. */
  datatype Ran = Ours(request: Request) | Theirs(request: Request)

  /** The store and the tick's counts. */
  datatype Tally = Tally(db: Db, fired: nat, errors: nat)

  function Counted(reg: Registry, t: Tally, ran: Ran): Tally {
    var db := Serve(reg, t.db, ran.request);
    if ran.Theirs? then
      t.(db := db)
    else
      match ServeTx(reg, t.db, ran.request)
      case Ok(Some(_)) => Tally(db, t.fired + 1, t.errors)
      case Ok(None) => t.(db := db)
      case Err(_) => Tally(db, t.fired, t.errors + 1)
  }

  /** The store and the counts after an interleaving. */
  function Play(reg: Registry, db: Db, trace: seq<Ran>): Tally {
    if trace == [] then Tally(db, 0, 0)
    else Counted(reg, Play(reg, db, trace[..|trace| - 1]), trace[|trace| - 1])
  }

  /** A `$timeout` transition of the machine, guarded by a number of seconds, which is its time. */
  ghost predicate TimerOf(reg: Registry, machine: string, t: Transition, timeoutMs: int) {
    && machine in reg && t in reg[machine].transitions && t.on == TimeoutEvent
    && t.guard.TimeoutSeconds? && t.guard.seconds.Some? && timeoutMs == t.guard.seconds.value * 1000
  }

  /** The tick submits nothing but timers of registered machines, at its own time, and none of a machine
      that is parallel but stored as flat. */
  ghost predicate OursAreTimers(reg: Registry, trace: seq<Ran>, now: int) {
    forall i :: 0 <= i < |trace| && trace[i].Ours? ==> IsTimer(reg, trace[i].request, now)
  }

  /** A timer that the query can see. */
  ghost predicate IsTimer(reg: Registry, request: Request, now: int) {
    && request.Timer? && request.now == now
    && TimerOf(reg, request.key.machine, request.transition, request.timeoutMs)
    && !StoredAsFlat(reg[request.key.machine])
  }

  // ---------------------------------------------------------------- due timers

  /** The entity is live, and its region has been in the transition's source state for that time. */
  ghost predicate InSourceFor(e: Entity, t: Transition, timeoutMs: int, now: int) {
    e.Live() && InSource(t, e.states) && Clamped(EntryOf(e, RegionOf(t)).enteredAt + timeoutMs) <= now
  }

  /** The timer is due on this store and the prefilter can see it. */
  ghost predicate TimerDue(reg: Registry, db: Db, key: Key, t: Transition, timeoutMs: int, now: int) {
    && key in db.entities && TimerOf(reg, key.machine, t, timeoutMs)
    && InSourceFor(db.entities[key], t, timeoutMs, now)
    && I64_MIN <= EntryOf(db.entities[key], RegionOf(t)).enteredAt + timeoutMs <= I64_MAX
    && !StoredAsFlat(reg[key.machine])
  }

  lemma ReadyIffInSource(e: Entity, t: Transition, timeoutMs: int, now: int)
    ensures TimeoutReady(e, t.Region(), t.from, timeoutMs, now) <==> InSourceFor(e, t, timeoutMs, now)
  {
  }

  /** The entity has ended, or the region is in an entry instance that began after version `e.version`. */
  ghost predicate LeftSince(e: Entity, e': Entity, region: string) {
    e'.Live() && region in e'.states ==> e.version < EntryOf(e', region).entry
  }

  /** A point of the tick: the store, and how it came about. */
  datatype Moment = Moment(db: Db, trace: seq<Ran>)

  ghost predicate Later(m: Moment, m': Moment) {
    AllKept(m.db.entities, m'.db.entities) && m.trace <= m'.trace
  }

  lemma LaterOn(m: Moment, m1: Moment, m2: Moment)
    requires Later(m, m1) && Later(m1, m2)
    ensures Later(m, m2)
  {
    AllKeptOn(m.db.entities, m1.db.entities, m2.db.entities);
    assert m2.trace[..|m.trace|] == m2.trace[..|m1.trace|][..|m.trace|];
  }

  /** The tick tried this timer after the steps `before`, and failed. */
  ghost predicate FailedAfter(reg: Registry, start: Db, before: seq<Ran>, ran: Ran, key: Key, t: Transition) {
    && ran.Ours? && ran.request.Timer? && ran.request.key == key && ran.request.transition == t
    && ServeTx(reg, Play(reg, start, before).db, ran.request).Err?
  }

  ghost predicate Failed(reg: Registry, start: Db, trace: seq<Ran>, key: Key, t: Transition) {
    exists before, ran {:trigger FailedAfter(reg, start, before, ran, key, t)} ::
      FailedAfter(reg, start, before, ran, key, t) && before + [ran] <= trace
  }

  /** If the timer was due at the start, its entry instance is over, or its own attempt failed. */
  ghost predicate Over(reg: Registry, start: Db, m: Moment, key: Key, t: Transition, timeoutMs: int, now: int) {
    TimerDue(reg, start, key, t, timeoutMs, now) ==>
      || (key in m.db.entities && LeftSince(start.entities[key], m.db.entities[key], t.Region()))
      || Failed(reg, start, m.trace, key, t)
  }

  /** Of one transition's timers, only those of `waiting` may be left. */
  ghost predicate OverExcept(
    reg: Registry, start: Db, m: Moment, machine: string, t: Transition, timeoutMs: int, now: int,
    waiting: seq<string>)
  {
    forall key: Key {:trigger Over(reg, start, m, key, t, timeoutMs, now)} ::
      key.machine == machine && key.id !in waiting ==> Over(reg, start, m, key, t, timeoutMs, now)
  }

  lemma OverStays(reg: Registry, start: Db, m: Moment, m': Moment, key: Key, t: Transition, timeoutMs: int, now: int)
    requires AllKept(start.entities, m.db.entities) && Later(m, m')
    requires Over(reg, start, m, key, t, timeoutMs, now)
    ensures Over(reg, start, m', key, t, timeoutMs, now)
  {
    if TimerDue(reg, start, key, t, timeoutMs, now) {
      if !Failed(reg, start, m.trace, key, t) {
        assert KeptAt(start.entities, m.db.entities, key) && KeptAt(m.db.entities, m'.db.entities, key);
        KeptEntry(start.entities[key], m.db.entities[key], t.Region());
        KeptEntry(m.db.entities[key], m'.db.entities[key], t.Region());
      }
    }
  }

  lemma OverExceptStays(
    reg: Registry, start: Db, m: Moment, m': Moment, machine: string, t: Transition, timeoutMs: int, now: int,
    waiting: seq<string>)
    requires AllKept(start.entities, m.db.entities) && Later(m, m')
    requires OverExcept(reg, start, m, machine, t, timeoutMs, now, waiting)
    ensures OverExcept(reg, start, m', machine, t, timeoutMs, now, waiting)
  {
    forall key: Key | key.machine == machine && key.id !in waiting
      ensures Over(reg, start, m', key, t, timeoutMs, now)
    {
      OverStays(reg, start, m, m', key, t, timeoutMs, now);
    }
  }

  /** A due timer stays due until its entry instance is over. */
  lemma DueOrOver(reg: Registry, start: Db, db: Db, key: Key, t: Transition, timeoutMs: int, now: int)
    requires AllKept(start.entities, db.entities)
    requires TimerDue(reg, start, key, t, timeoutMs, now)
    ensures key in db.entities
    ensures TimerDue(reg, db, key, t, timeoutMs, now) || LeftSince(start.entities[key], db.entities[key], t.Region())
  {
    assert KeptAt(start.entities, db.entities, key);
    KeptEntry(start.entities[key], db.entities[key], t.Region());
  }

  /** The ids that the timer query returns. */
  function CandidateIds(reg: Registry, db: Db, machine: string, t: Transition, cutoff: int): set<string>
    requires machine in reg
  {
    set k | k in db.entities && k.machine == machine &&
        Candidate(reg[machine], db.entities[k], t.Region(), t.from, cutoff) :: k.id
  }

  /** Of a machine that is parallel but stored as flat, the query selects nothing. */
  lemma StoredAsFlatUnseen(reg: Registry, db: Db, machine: string, t: Transition, cutoff: int)
    requires Consistent(reg, db) && machine in reg && StoredAsFlat(reg[machine])
    ensures CandidateIds(reg, db, machine, t, cutoff) == {}
  {
    forall k | k in db.entities && k.machine == machine
      ensures !Candidate(reg[machine], db.entities[k], t.Region(), t.from, cutoff)
    {
      assert EntityOkAt(reg, db.entities, db.history, k);
      EncodeRoundTrip(db.entities[k].states);
    }
  }

  lemma DueIsCandidate(reg: Registry, db: Db, key: Key, t: Transition, timeoutMs: int, now: int)
    requires Consistent(reg, db) && TimerDue(reg, db, key, t, timeoutMs, now)
    ensures key.id in CandidateIds(reg, db, key.machine, t, now - timeoutMs)
  {
    assert EntityOkAt(reg, db.entities, db.history, key);
    PrefilterAgrees(reg[key.machine], db.entities[key], t.Region(), t.from, timeoutMs, now);
  }

  /** The query misses no due timer. */
  lemma QueryFindsDue(reg: Registry, start: Db, m: Moment, machine: string, t: Transition, timeoutMs: int, now: int)
    requires machine in reg && Consistent(reg, m.db) && AllKept(start.entities, m.db.entities)
    ensures OverExcept(reg, start, m, machine, t, timeoutMs, now,
                       SortedKeys(CandidateIds(reg, m.db, machine, t, now - timeoutMs)))
    ensures StoredAsFlat(reg[machine]) ==> CandidateIds(reg, m.db, machine, t, now - timeoutMs) == {}
  {
    if StoredAsFlat(reg[machine]) {
      StoredAsFlatUnseen(reg, m.db, machine, t, now - timeoutMs);
    }
    var ids := CandidateIds(reg, m.db, machine, t, now - timeoutMs);
    forall key: Key | key.machine == machine && key.id !in SortedKeys(ids)
      ensures Over(reg, start, m, key, t, timeoutMs, now)
    {
      if TimerDue(reg, start, key, t, timeoutMs, now) {
        DueOrOver(reg, start, m.db, key, t, timeoutMs, now);
        if TimerDue(reg, m.db, key, t, timeoutMs, now) {
          DueIsCandidate(reg, m.db, key, t, timeoutMs, now);
        }
      }
    }
  }

  /** An attempt that does not fail ends the timer's entry instance, if nothing else had. */
  lemma AttemptEnds(reg: Registry, start: Db, m: Moment, key: Key, t: Transition, timeoutMs: int, now: int, clock: int)
    requires WellFormedRegistry(reg) && Consistent(reg, m.db) && AllKept(start.entities, m.db.entities)
    requires key.machine in reg && Play(reg, start, m.trace).db == m.db
    ensures var request := Timer(key, t, timeoutMs, now, clock);
            Over(reg, start, Moment(Serve(reg, m.db, request), m.trace + [Ours(request)]), key, t, timeoutMs, now)
  {
    var request := Timer(key, t, timeoutMs, now, clock);
    var db, db' := m.db, Serve(reg, m.db, request);
    var trace' := m.trace + [Ours(request)];
    if ServeTx(reg, db, request).Err? {
      assert FailedAfter(reg, start, m.trace, Ours(request), key, t);
    } else if TimerDue(reg, start, key, t, timeoutMs, now) {
      ServeGrows(reg, db, request);
      DueOrOver(reg, start, db, key, t, timeoutMs, now);
      assert KeptAt(start.entities, db.entities, key) && KeptAt(db.entities, db'.entities, key);
      KeptEntry(start.entities[key], db.entities[key], t.Region());
      KeptEntry(db.entities[key], db'.entities[key], t.Region());
      if TimerDue(reg, db, key, t, timeoutMs, now) {
        var _ := ReadyTimerFires(reg, db, key, t, timeoutMs, now, clock);
      }
    }
  }

  /** Step `i` is the tick's own and fired: on the store it met, the region had been in the transition's
      source state for the guard's time. */
  ghost predicate InTime(reg: Registry, start: Db, trace: seq<Ran>, i: nat)
    requires i < |trace|
  {
    var db, r := Play(reg, start, trace[..i]).db, trace[i].request;
    trace[i].Ours? && r.Timer? && ServeTx(reg, db, r).Ok? && ServeTx(reg, db, r).value.Some? ==>
      r.key in db.entities && InSourceFor(db.entities[r.key], r.transition, r.timeoutMs, r.now)
  }

  ghost predicate AllInTime(reg: Registry, start: Db, trace: seq<Ran>) {
    forall i {:trigger InTime(reg, start, trace, i)} :: 0 <= i < |trace| ==> InTime(reg, start, trace, i)
  }

  lemma TickInTime(reg: Registry, start: Db, trace: seq<Ran>)
    ensures AllInTime(reg, start, trace)
  {
    forall i | 0 <= i < |trace| ensures InTime(reg, start, trace, i) {
      var db, r := Play(reg, start, trace[..i]).db, trace[i].request;
      if r.Timer? && r.key in db.entities {
        ReadyIffInSource(db.entities[r.key], r.transition, r.timeoutMs, r.now);
      }
    }
  }

  /** The tick's own steps that committed, and those that were refused. */
  ghost predicate FiredAt(reg: Registry, start: Db, trace: seq<Ran>, i: nat)
    requires i < |trace|
  {
    var answer := ServeTx(reg, Play(reg, start, trace[..i]).db, trace[i].request);
    trace[i].Ours? && answer.Ok? && answer.value.Some?
  }

  ghost predicate RefusedAt(reg: Registry, start: Db, trace: seq<Ran>, i: nat)
    requires i < |trace|
  {
    trace[i].Ours? && ServeTx(reg, Play(reg, start, trace[..i]).db, trace[i].request).Err?
  }

  ghost function FiredSteps(reg: Registry, start: Db, trace: seq<Ran>): set<nat> {
    set i: nat | i < |trace| && FiredAt(reg, start, trace, i)
  }

  ghost function RefusedSteps(reg: Registry, start: Db, trace: seq<Ran>): set<nat> {
    set i: nat | i < |trace| && RefusedAt(reg, start, trace, i)
  }

  lemma SameStep(reg: Registry, start: Db, trace: seq<Ran>, i: nat)
    requires i < |trace| - 1
    ensures FiredAt(reg, start, trace[..|trace| - 1], i) == FiredAt(reg, start, trace, i)
    ensures RefusedAt(reg, start, trace[..|trace| - 1], i) == RefusedAt(reg, start, trace, i)
  {
    assert trace[..|trace| - 1][..i] == trace[..i];
  }

  lemma FiredOneMore(reg: Registry, start: Db, trace: seq<Ran>)
    requires trace != []
    ensures var n := |trace| - 1;
            |FiredSteps(reg, start, trace)| ==
              |FiredSteps(reg, start, trace[..n])| + if FiredAt(reg, start, trace, n) then 1 else 0
  {
    var n := |trace| - 1;
    forall i: nat | i < n ensures FiredAt(reg, start, trace[..n], i) == FiredAt(reg, start, trace, i) {
      SameStep(reg, start, trace, i);
    }
    assert FiredSteps(reg, start, trace)
        == FiredSteps(reg, start, trace[..n]) + if FiredAt(reg, start, trace, n) then {n} else {};
  }

  lemma RefusedOneMore(reg: Registry, start: Db, trace: seq<Ran>)
    requires trace != []
    ensures var n := |trace| - 1;
            |RefusedSteps(reg, start, trace)| ==
              |RefusedSteps(reg, start, trace[..n])| + if RefusedAt(reg, start, trace, n) then 1 else 0
  {
    var n := |trace| - 1;
    forall i: nat | i < n ensures RefusedAt(reg, start, trace[..n], i) == RefusedAt(reg, start, trace, i) {
      SameStep(reg, start, trace, i);
    }
    assert RefusedSteps(reg, start, trace)
        == RefusedSteps(reg, start, trace[..n]) + if RefusedAt(reg, start, trace, n) then {n} else {};
  }

  /** The counts are the numbers of those steps. */
  lemma {:induction false} TallyCounts(reg: Registry, start: Db, trace: seq<Ran>)
    ensures Play(reg, start, trace).fired == |FiredSteps(reg, start, trace)|
    ensures Play(reg, start, trace).errors == |RefusedSteps(reg, start, trace)|
    decreases |trace|
  {
    if trace == [] {
      assert FiredSteps(reg, start, trace) == {} && RefusedSteps(reg, start, trace) == {};
    } else {
      TallyCounts(reg, start, trace[..|trace| - 1]);
      FiredOneMore(reg, start, trace);
      RefusedOneMore(reg, start, trace);
    }
  }

  // ---------------------------------------------------------------- a tick in progress

  datatype TickReport = TickReport(fired: nat, errors: nat)

  /** The store and the report are what the interleaving so far gives. */
  ghost predicate Progress(reg: Registry, start: Db, db: Db, report: TickReport, trace: seq<Ran>, now: int) {
    && WellFormedRegistry(reg)
    && Consistent(reg, db)
    && AllKept(start.entities, db.entities)
    && Play(reg, start, trace) == Tally(db, report.fired, report.errors)
    && OursAreTimers(reg, trace, now)
  }

  lemma RanOne(
    reg: Registry, start: Db, db: Db, report: TickReport, trace: seq<Ran>, ran: Ran, report': TickReport, now: int)
    requires Progress(reg, start, db, report, trace, now)
    requires ran.Ours? ==> IsTimer(reg, ran.request, now)
    requires Counted(reg, Tally(db, report.fired, report.errors), ran)
          == Tally(Serve(reg, db, ran.request), report'.fired, report'.errors)
    ensures Progress(reg, start, Serve(reg, db, ran.request), report', trace + [ran], now)
    ensures Later(Moment(db, trace), Moment(Serve(reg, db, ran.request), trace + [ran]))
  {
    ServeKeepsConsistent(reg, db, ran.request);
    ServeGrows(reg, db, ran.request);
    AllKeptOn(start.entities, db.entities, Serve(reg, db, ran.request).entities);
  }

  /** One more candidate tried: the others' timers stay over, and its own is over now. */
  lemma OneOver(
    reg: Registry, start: Db, m: Moment, m1: Moment, machine: string, t: Transition, timeoutMs: int, now: int,
    clock: int, ids: seq<string>, i: nat)
    requires WellFormedRegistry(reg) && Consistent(reg, m1.db) && machine in reg && i < |ids|
    requires AllKept(start.entities, m.db.entities) && AllKept(start.entities, m1.db.entities) && Later(m, m1)
    requires Play(reg, start, m1.trace).db == m1.db
    requires OverExcept(reg, start, m, machine, t, timeoutMs, now, ids[i..])
    ensures var request := Timer(Key(machine, ids[i]), t, timeoutMs, now, clock);
            var m2 := Moment(Serve(reg, m1.db, request), m1.trace + [Ours(request)]);
            OverExcept(reg, start, m2, machine, t, timeoutMs, now, ids[i + 1..])
  {
    var request := Timer(Key(machine, ids[i]), t, timeoutMs, now, clock);
    var m2 := Moment(Serve(reg, m1.db, request), m1.trace + [Ours(request)]);
    ServeGrows(reg, m1.db, request);
    OverExceptStays(reg, start, m, m1, machine, t, timeoutMs, now, ids[i..]);
    OverExceptStays(reg, start, m1, m2, machine, t, timeoutMs, now, ids[i..]);
    AttemptEnds(reg, start, m1, Key(machine, ids[i]), t, timeoutMs, now, clock);
    forall key: Key | key.machine == machine && key.id !in ids[i + 1..]
      ensures Over(reg, start, m2, key, t, timeoutMs, now)
    {
      assert ids[i..] == [ids[i]] + ids[i + 1..];
      assert key.id != ids[i] ==> key.id !in ids[i..];
      assert key.id == ids[i] ==> key == Key(machine, ids[i]);
    }
  }

  /** The bookkeeping of one attempt. */
  lemma TriedOne(
    reg: Registry, start: Db, origin: Moment, before: Moment, between: Moment, machine: string, t: Transition,
    timeoutMs: int, now: int, clock: int, ids: seq<string>, i: nat, report: TickReport, report': TickReport)
    requires Progress(reg, start, between.db, report, between.trace, now)
    requires AllKept(start.entities, before.db.entities) && Later(origin, before) && Later(before, between)
    requires TimerOf(reg, machine, t, timeoutMs) && !StoredAsFlat(reg[machine]) && i < |ids|
    requires OverExcept(reg, start, before, machine, t, timeoutMs, now, ids[i..])
    requires var request := Timer(Key(machine, ids[i]), t, timeoutMs, now, clock);
             Counted(reg, Tally(between.db, report.fired, report.errors), Ours(request))
               == Tally(Serve(reg, between.db, request), report'.fired, report'.errors)
    ensures var request := Timer(Key(machine, ids[i]), t, timeoutMs, now, clock);
            var after := Moment(Serve(reg, between.db, request), between.trace + [Ours(request)]);
            && Progress(reg, start, after.db, report', after.trace, now) && Later(origin, after)
            && OverExcept(reg, start, after, machine, t, timeoutMs, now, ids[i + 1..])
  {
    var request := Timer(Key(machine, ids[i]), t, timeoutMs, now, clock);
    var after := Moment(Serve(reg, between.db, request), between.trace + [Ours(request)]);
    RanOne(reg, start, between.db, report, between.trace, Ours(request), report', now);
    OneOver(reg, start, before, between, machine, t, timeoutMs, now, clock, ids, i);
    LaterOn(before, between, after);
    LaterOn(origin, before, after);
  }

  /** Every timer of the transition that was due at the start is over. */
  ghost predicate TransitionOver(reg: Registry, start: Db, m: Moment, machine: string, t: Transition, now: int) {
    t.on == TimeoutEvent && TimeoutMs(t.guard).Some? ==>
      OverExcept(reg, start, m, machine, t, TimeoutMs(t.guard).value, now, [])
  }

  ghost predicate MachineOver(reg: Registry, start: Db, m: Moment, machine: string, now: int)
    requires machine in reg
  {
    forall j :: 0 <= j < |reg[machine].transitions| ==>
      TransitionOver(reg, start, m, machine, reg[machine].transitions[j], now)
  }

  lemma TransitionOverStays(reg: Registry, start: Db, m: Moment, m': Moment, machine: string, t: Transition, now: int)
    requires AllKept(start.entities, m.db.entities) && Later(m, m')
    requires TransitionOver(reg, start, m, machine, t, now)
    ensures TransitionOver(reg, start, m', machine, t, now)
  {
    if t.on == TimeoutEvent && TimeoutMs(t.guard).Some? {
      OverExceptStays(reg, start, m, m', machine, t, TimeoutMs(t.guard).value, now, []);
    }
  }

  lemma MachineOverStays(reg: Registry, start: Db, m: Moment, m': Moment, machine: string, now: int)
    requires AllKept(start.entities, m.db.entities) && Later(m, m')
    requires machine in reg && MachineOver(reg, start, m, machine, now)
    ensures MachineOver(reg, start, m', machine, now)
  {
    forall j | 0 <= j < |reg[machine].transitions|
      ensures TransitionOver(reg, start, m', machine, reg[machine].transitions[j], now)
    {
      TransitionOverStays(reg, start, m, m', machine, reg[machine].transitions[j], now);
    }
  }

  /** The timers of the first `n` machines are over. */
  ghost predicate MachinesOver(reg: Registry, start: Db, m: Moment, machines: seq<string>, n: nat, now: int)
    requires n <= |machines| && forall id :: id in machines ==> id in reg
  {
    forall j :: 0 <= j < n ==> MachineOver(reg, start, m, machines[j], now)
  }

  lemma MachinesOverNext(
    reg: Registry, start: Db, m: Moment, m': Moment, machines: seq<string>, i: nat, now: int)
    requires AllKept(start.entities, m.db.entities) && Later(m, m')
    requires i < |machines| && forall id :: id in machines ==> id in reg
    requires MachinesOver(reg, start, m, machines, i, now) && MachineOver(reg, start, m', machines[i], now)
    ensures MachinesOver(reg, start, m', machines, i + 1, now)
  {
    forall j | 0 <= j < i ensures MachineOver(reg, start, m', machines[j], now) {
      MachineOverStays(reg, start, m, m', machines[j], now);
    }
  }

  /** Every timer that was due at the start has ended its entry instance or was tried and failed. */
  ghost predicate AllOver(reg: Registry, start: Db, m: Moment, now: int) {
    forall key, t, timeoutMs {:trigger Over(reg, start, m, key, t, timeoutMs, now)} ::
      Over(reg, start, m, key, t, timeoutMs, now)
  }

  lemma MachinesCoverAll(reg: Registry, start: Db, m: Moment, machines: seq<string>, now: int)
    requires forall id :: id in machines <==> id in reg
    requires MachinesOver(reg, start, m, machines, |machines|, now)
    ensures AllOver(reg, start, m, now)
  {
    forall key, t, timeoutMs ensures Over(reg, start, m, key, t, timeoutMs, now) {
      if TimerDue(reg, start, key, t, timeoutMs, now) {
        assert key.machine in machines;
        var j :| 0 <= j < |machines| && machines[j] == key.machine;
        assert MachineOver(reg, start, m, machines[j], now);
        var i :| 0 <= i < |reg[key.machine].transitions| && reg[key.machine].transitions[i] == t;
        assert TransitionOver(reg, start, m, key.machine, reg[key.machine].transitions[i], now);
        assert Over(reg, start, m, key, t, timeoutMs, now);
      }
    }
  }

  // ---------------------------------------------------------------- the service

  class Service {
    const reg: Registry
    var db: Db

    /** The invariants of every store that requests reach. */
    ghost predicate Valid()
      reads this
    {
      WellFormedRegistry(reg) && Consistent(reg, db)
    }

    constructor (reg: Registry)
      requires WellFormedRegistry(reg)
      ensures this.reg == reg && db == EMPTY && Valid()
    {
      this.reg := reg;
      db := EMPTY;
      new;
      ReachableConsistent(reg, [], 0);
    }

    /** The caller's answer is the committed transaction's lifecycle events, or its error. */
    ghost predicate Answers(served: Result<Option<Tx>>, r: Result<seq<InstanceEvent>>) {
      match served
      case Ok(Some(tx)) => r == Ok(tx.events)
      case Ok(None) => r == Ok([])
      case Err(error) => r == Err(error)
    }

    method CreateEntity(key: Key, context: Context, orIgnore: bool, clock: int) returns (r: Result<seq<InstanceEvent>>)
      requires Valid()
      modifies this`db
      ensures Valid() && (r.Err? ==> db == old(db))
      ensures db == Serve(reg, old(db), Create(key, context, orIgnore, clock))
      ensures Answers(ServeTx(reg, old(db), Create(key, context, orIgnore, clock)), r)
    {
      ServeKeepsConsistent(reg, db, Create(key, context, orIgnore, clock));
      var machine :- LoadMachine(reg, key.machine);
      var tx := new Transaction(reg, db, Trigger(External("$create"), clock, clock));
      var _ :- tx.CreateRoot(key, context, orIgnore);
      db := Db(tx.entities, tx.history);
      return Ok(tx.events);
    }

    method ExecuteTransition(
      key: Key, name: string, params: Params, timestamp: int, clock: int) returns (r: Result<seq<InstanceEvent>>)
      requires Valid()
      modifies this`db
      ensures Valid() && (r.Err? ==> db == old(db))
      ensures db == Serve(reg, old(db), Event(key, name, params, timestamp, clock))
      ensures Answers(ServeTx(reg, old(db), Event(key, name, params, timestamp, clock)), r)
    {
      ServeKeepsConsistent(reg, db, Event(key, name, params, timestamp, clock));
      var machine :- LoadMachine(reg, key.machine);
      var tx := new Transaction(reg, db, Trigger(EventNamed(name), timestamp, clock));
      var _ :- tx.TransitionInTx(key, params, true);
      db := Db(tx.entities, tx.history);
      return Ok(tx.events);
    }

    method ExecuteTargeted(key: Key, target: seq<TargetStep>, name: string, params: Params, timestamp: int, clock: int)
      returns (r: Result<seq<InstanceEvent>>)
      requires Valid()
      modifies this`db
      ensures Valid() && (r.Err? ==> db == old(db))
      ensures db == Serve(reg, old(db), Targeted(key, target, name, params, timestamp, clock))
      ensures Answers(ServeTx(reg, old(db), Targeted(key, target, name, params, timestamp, clock)), r)
    {
      ServeKeepsConsistent(reg, db, Targeted(key, target, name, params, timestamp, clock));
      var machine :- LoadMachine(reg, key.machine);
      var tx := new Transaction(reg, db, Trigger(EventNamed(name), timestamp, clock));
      var _ :- tx.ExecuteTargeted(key, target, params);
      db := Db(tx.entities, tx.history);
      return Ok(tx.events);
    }

    /** Re-read and re-check one candidate, and fire its timer if it is still due. */
    method FireTimeout(
      key: Key, t: Transition, timeoutMs: int, now: int, clock: int) returns (r: Result<Option<seq<InstanceEvent>>>)
      requires Valid() && key.machine in reg
      modifies this`db
      ensures Valid() && (r.Err? ==> db == old(db))
      ensures db == Serve(reg, old(db), Timer(key, t, timeoutMs, now, clock))
      ensures match ServeTx(reg, old(db), Timer(key, t, timeoutMs, now, clock))
              case Ok(Some(tx)) => r == Ok(Some(tx.events))
              case Ok(None) => r == Ok(None)
              case Err(error) => r == Err(error)
    {
      ServeKeepsConsistent(reg, db, Timer(key, t, timeoutMs, now, clock));
      var tx := new Transaction(reg, db, Trigger(TimeoutEvent, now, clock));
      if key !in tx.entities {
        return Ok(None);
      }
      var entity := tx.entities[key];
      if !entity.Live() {
        return Ok(None);
      }
      var region := t.Region();
      if !(region in entity.states && entity.states[region] == t.from) {
        return Ok(None);
      }
      var entry := EntryOf(entity, region);
      if !TimeoutDue(entry, timeoutMs, now) {
        return Ok(None);
      }
      var machine := reg[key.machine];
      var states, joins := entity.states[region := t.to], [];
      if machine.IsParallel() {
        states, joins := ApplyJoins(machine.joins, states, JOIN_DEPTH);
      }
      var cause := TimeoutCause(region, entry.entry, entry.enteredAt, entry.basis, timeoutMs,
                                SaturatingAdd(entry.enteredAt, timeoutMs));
      var spec := WriteSpec(TimeoutEvent, t.from, t.to, region, RowRegion(machine, region), entity.context, now,
                            TimeoutId(region, entry.entry), cause, states, joins, None);
      assert spec == TimeoutSpec(machine, entity, t, timeoutMs, now);
      var written := tx.WriteEntity(key, entity, spec);
      match written {
        case Ok(_) =>
        case Err(Conflict) => return Ok(None);
        case Err(error) => return Err(error);
      }
      db := Db(tx.entities, tx.history);
      return Ok(Some(tx.events));
    }

    /** Whatever other writers commit between two transactions of a tick. */
    method Others(ghost start: Db, report: TickReport, ghost trace: seq<Ran>, now: int) returns (ghost trace': seq<Ran>)
      requires Progress(reg, start, db, report, trace, now)
      modifies this`db
      ensures Progress(reg, start, db, report, trace', now) && Later(Moment(old(db), trace), Moment(db, trace'))
    {
      var requests: seq<Request> := *;
      trace' := trace;
      assert AllKept(db.entities, db.entities);
      for i := 0 to |requests|
        invariant Progress(reg, start, db, report, trace', now) && Later(Moment(old(db), trace), Moment(db, trace'))
      {
        ghost var before := Moment(db, trace');
        match requests[i] {
          case Create(key, context, orIgnore, clock) => var _ := CreateEntity(key, context, orIgnore, clock);
          case Event(key, name, params, timestamp, clock) =>
            var _ := ExecuteTransition(key, name, params, timestamp, clock);
          case Targeted(key, target, name, params, timestamp, clock) =>
            var _ := ExecuteTargeted(key, target, name, params, timestamp, clock);
          case Timer(key, t, timeoutMs, timerNow, clock) =>
            if key.machine in reg {
              var _ := FireTimeout(key, t, timeoutMs, timerNow, clock);
            }
        }
        RanOne(reg, start, before.db, report, trace', Theirs(requests[i]), report, now);
        trace' := trace' + [Theirs(requests[i])];
        LaterOn(Moment(old(db), trace), before, Moment(db, trace'));
      }
    }

    /** Try one candidate and count what came of it. */
    method Attempt(
      key: Key, t: Transition, timeoutMs: int, now: int, clock: int, report: TickReport) returns (report': TickReport)
      requires Valid() && key.machine in reg
      modifies this`db
      ensures Valid()
      ensures var request := Timer(key, t, timeoutMs, now, clock);
              && db == Serve(reg, old(db), request)
              && Counted(reg, Tally(old(db), report.fired, report.errors), Ours(request)) == Tally(db, report'.fired,
                  report'.errors)
    {
      var fired := FireTimeout(key, t, timeoutMs, now, clock);
      match fired {
        case Ok(Some(_)) => report' := report.(fired := report.fired + 1);
        case Ok(None) => report' := report;
        case Err(_) => report' := report.(errors := report.errors + 1);
      }
    }

    /** Drain the candidates of one transition, then try them one by one on whatever the store is by
        then. A failed one is counted and skipped. */
    method FireDue(
      machine: string, t: Transition, timeoutMs: int, now: int, ghost start: Db, report: TickReport,
      ghost trace: seq<Ran>)
      returns (report': TickReport, ghost trace': seq<Ran>)
      requires TimerOf(reg, machine, t, timeoutMs) && Progress(reg, start, db, report, trace, now)
      modifies this`db
      ensures Progress(reg, start, db, report', trace', now) && Later(Moment(old(db), trace), Moment(db, trace'))
      ensures OverExcept(reg, start, Moment(db, trace'), machine, t, timeoutMs, now, [])
    {
      trace' := Others(start, report, trace, now);
      report' := report;
      var ids := SortedKeys(CandidateIds(reg, db, machine, t, now - timeoutMs));
      QueryFindsDue(reg, start, Moment(db, trace'), machine, t, timeoutMs, now);
      assert StoredAsFlat(reg[machine]) ==> ids == [];
      assert ids[0..] == ids;
      for i := 0 to |ids|
        invariant Progress(reg, start, db, report', trace', now) && Later(Moment(old(db), trace), Moment(db, trace'))
        invariant OverExcept(reg, start, Moment(db, trace'), machine, t, timeoutMs, now, ids[i..])
      {
        ghost var before := Moment(db, trace');
        trace' := Others(start, report', trace', now);
        ghost var between, attempted := Moment(db, trace'), report';
        var clock: int := *;
        report' := Attempt(Key(machine, ids[i]), t, timeoutMs, now, clock, report');
        TriedOne(reg, start, Moment(old(db), trace), before, between, machine, t, timeoutMs, now, clock, ids, i,
                 attempted, report');
        trace' := trace' + [Ours(Timer(Key(machine, ids[i]), t, timeoutMs, now, clock))];
      }
      assert ids[|ids|..] == [];
    }

    /** The `$timeout` transitions of one machine, in definition order; one without a time is skipped. */
    method TickMachine(machine: string, now: int, ghost start: Db, report: TickReport, ghost trace: seq<Ran>)
      returns (report': TickReport, ghost trace': seq<Ran>)
      requires machine in reg && Progress(reg, start, db, report, trace, now)
      modifies this`db
      ensures Progress(reg, start, db, report', trace', now) && Later(Moment(old(db), trace), Moment(db, trace'))
      ensures MachineOver(reg, start, Moment(db, trace'), machine, now)
    {
      var transitions := reg[machine].transitions;
      report', trace' := report, trace;
      assert AllKept(db.entities, db.entities);
      for i := 0 to |transitions|
        invariant Progress(reg, start, db, report', trace', now) && Later(Moment(old(db), trace), Moment(db, trace'))
        invariant forall j :: 0 <= j < i ==>
                    TransitionOver(reg, start, Moment(db, trace'), machine, transitions[j], now)
      {
        var t := transitions[i];
        ghost var before := Moment(db, trace');
        if t.on == TimeoutEvent && TimeoutMs(t.guard).Some? {
          report', trace' := FireDue(machine, t, TimeoutMs(t.guard).value, now, start, report', trace');
          LaterOn(Moment(old(db), trace), before, Moment(db, trace'));
          forall j | 0 <= j < i ensures TransitionOver(reg, start, Moment(db, trace'), machine, transitions[j], now) {
            TransitionOverStays(reg, start, before, Moment(db, trace'), machine, transitions[j], now);
          }
        }
      }
    }

    /** One pass of the scheduler over every machine's `$timeout` transitions. Its counts are those of
        its own steps; it submits timers only; and every timer that was due when it began has ended
        its entry instance, by this pass or by others, or was tried and failed. */
    method Tick(now: int) returns (report: TickReport, ghost trace: seq<Ran>)
      requires Valid()
      modifies this`db
      ensures Valid()
      ensures Play(reg, old(db), trace) == Tally(db, report.fired, report.errors) && OursAreTimers(reg, trace, now)
      ensures report.fired == |FiredSteps(reg, old(db), trace)| && report.errors == |RefusedSteps(reg, old(db), trace)|
      ensures AllOver(reg, old(db), Moment(db, trace), now) && AllInTime(reg, old(db), trace)
    {
      ghost var start := db;
      report, trace := TickReport(0, 0), [];
      var machines := SortedKeys(reg.Keys);
      assert AllKept(start.entities, db.entities);
      for i := 0 to |machines|
        invariant Progress(reg, start, db, report, trace, now)
        invariant MachinesOver(reg, start, Moment(db, trace), machines, i, now)
      {
        ghost var before := Moment(db, trace);
        report, trace := TickMachine(machines[i], now, start, report, trace);
        MachinesOverNext(reg, start, before, Moment(db, trace), machines, i, now);
      }
      MachinesCoverAll(reg, start, Moment(db, trace), machines, now);
      TickInTime(reg, start, trace);
      TallyCounts(reg, start, trace);
    }
  }
}
