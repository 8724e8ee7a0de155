/** Where an untargeted event goes: one live entity of the subtree handles it, and if none does, none
    could have. */
module Routing {
  import opened Models
  import opened Engine
  import opened EngineSteps
  import opened Store
  import opened Lifecycle
  import opened Ledger
  import opened Tree
  import opened StartProofs
  import opened CascadeProofs
  import opened Requests
  import opened Delivery
  import opened Writes
  import opened Runs
  import opened Growth

  /** The event's row, at its handler. */
  ghost predicate RowOfEvent(row: Row, h: Key, m: Machine, t: Transition, params: Params, trig: Trigger) {
    && row.entity == h && row.eventType == trig.eventType && row.timestamp == trig.timestamp && row.params == params
    && row.from == Plain(t.from) && row.to == Plain(t.to) && row.identity == EventId(trig.eventType, trig.timestamp)
    && row.createdAt == trig.now && row.cause == NoCause
    && row.region == (if m.regions == [] then "" else RegionOf(t))
  }

  ghost function RegionOf(t: Transition): string {
    if t.region.Some? then t.region.value else "_"
  }

  /** The entity moved along the transition and then along the joins in `fired`, each of which was due. */
  ghost predicate MovedAlong(m: Machine, e: Entity, e': Entity, t: Transition, fired: seq<JoinFired>) {
    var moved := e.states[RegionOf(t) := t.to];
    e'.states == ApplyFired(moved, fired) && JoinsExplained(m.joins, moved, fired, 10)
  }

  /** No row of the entity has this event. */
  ghost predicate NotRecorded(history: seq<Row>, key: Key, trig: Trigger) {
    forall row :: row in history ==>
      !(row.entity == key && row.eventType == trig.eventType && row.timestamp == trig.timestamp)
  }

  /** `h`, live and new to the event, took its first transition for it, the `i`th, and its joins. That is
      the commit's first row, followed by one for each join. Its context took up the params, and no
      other entity's changed. */
  ghost predicate TookBy(
    reg: Registry, tx: Tx, trig: Trigger, params: Params, h: Key, i: nat, fired: seq<JoinFired>, tx': Tx)
  {
    && h in tx.entities && h.machine in reg && h in tx'.entities
    && var m, e, e' := reg[h.machine], tx.entities[h], tx'.entities[h];
       && e.Live() && NotRecorded(tx.history, h, trig)
       && FirstTakes(m.transitions, i, e.states, e.context, trig.eventType, params)
       && |tx.history| < |tx'.history|
       && RowOfEvent(tx'.history[|tx.history|], h, m, m.transitions[i], params, trig)
       && MovedAlong(m, e, e', m.transitions[i], fired)
       && JoinsRecorded(tx'.history, |tx.history| + 1, h, e.version + 1, EventId(trig.eventType, trig.timestamp), fired,
                        trig.timestamp, trig.now)
       && e'.context == e.context + params && e'.version == e.version + 1 && e'.updatedAt == trig.now
       && ContextsKept(tx.entities, tx'.entities, {h})
  }

  lemma HandlerMoves(reg: Registry, tx: Tx, trig: Trigger, key: Key, params: Params, h: Key, tx': Tx)
    returns (i: nat, fired: seq<JoinFired>)
    requires ConsistentTx(reg, tx) && Handled(reg, tx, trig, key, params, h, Ok(tx'))
    ensures TookBy(reg, tx, trig, params, h, i, fired, tx')
  {
    var m, e := reg[h.machine], tx.entities[h];
    i := EvaluatesToFirst(m.transitions, e.states, e.context, trig.eventType, params);
    var spec := EventSpec(m, e, m.transitions[i], params, trig);
    fired := spec.joins;
    EventSpecReady(reg, tx, trig, h, m.transitions[i], params);
    WholeWrite(reg, tx, trig, h, e, spec);
    DedupMeans(tx.history, h, trig, params);
    WriteTook(reg, tx, trig, params, h, i, spec, tx');
  }

  /** The event's write does all that. */
  lemma WriteTook(reg: Registry, tx: Tx, trig: Trigger, params: Params, h: Key, i: nat, spec: WriteSpec, tx': Tx)
    requires h in tx.entities && h.machine in reg && tx.entities[h].Live() && NotRecorded(tx.history, h, trig)
    requires var m, e := reg[h.machine], tx.entities[h];
             && FirstTakes(m.transitions, i, e.states, e.context, trig.eventType, params)
             && spec == EventSpec(m, e, m.transitions[i], params, trig)
             && WriteEnds(reg, tx, tx', h, e, spec, trig.now) && WriteRecorded(tx, tx', h, e, spec, trig.now)
    ensures TookBy(reg, tx, trig, params, h, i, spec.joins, tx')
  {
    var m, e := reg[h.machine], tx.entities[h];
    CascadeIsExplained(m.joins, e.states[RegionOf(m.transitions[i]) := m.transitions[i].to], 10);
  }

  /** Some row of the entity has this event with these params. */
  ghost predicate Repeats(history: seq<Row>, key: Key, trig: Trigger, params: Params) {
    exists row :: row in history && row.entity == key && row.eventType == trig.eventType
                  && row.timestamp == trig.timestamp && row.params == params
  }

  lemma DedupMeans(history: seq<Row>, key: Key, trig: Trigger, params: Params)
    ensures var seen := Dedup(history, key, trig.eventType, trig.timestamp, params);
            && (seen == New <==> NotRecorded(history, key, trig))
            && (seen == Duplicate <==> Repeats(history, key, trig, params))
  {
    if Repeats(history, key, trig, params) {
      var row :| row in history && row.entity == key && row.eventType == trig.eventType
                 && row.timestamp == trig.timestamp && row.params == params;
      var i :| 0 <= i < |history| && history[i] == row;
      assert SameEvent(history[i], key, trig.eventType, trig.timestamp);
    }
    if Dedup(history, key, trig.eventType, trig.timestamp, params) == New {
      forall row | row in history
        ensures !(row.entity == key && row.eventType == trig.eventType && row.timestamp == trig.timestamp)
      {
        var i :| 0 <= i < |history| && history[i] == row;
        assert !SameEvent(history[i], key, trig.eventType, trig.timestamp);
      }
    }
  }

  /** One entity took the event: at the request's entity or below, or exactly at its target. */
  ghost predicate TakenAt(
    reg: Registry, db: Db, request: Request, h: Key, i: nat, fired: seq<JoinFired>, after: Tx)
    requires request.Event? || request.Targeted?
  {
    && TookBy(reg, Begin(db), Trigger(EventNamed(request.name), request.timestamp, request.clock), request.params, h, i,
              fired, after)
    && if request.Event? then
         HandlerBelow(reg, Begin(db), TriggerOf(request), request.key, request.params, h)
       else
         && request.key.machine in reg && ResolveHops(reg, request.key, request.target).Ok?
         && h == HopsEnd(request.key, ResolveHops(reg, request.key, request.target).value)
  }

  /** A committed event was handled by one live entity that had not seen it, along its own first
      enabled transition: the addressed entity, or one below it when it has no transition of its own; a
      targeted event by its target only. */
  lemma EventHandled(reg: Registry, run: seq<Served>, n: nat) returns (h: Key, i: nat, fired: seq<JoinFired>)
    requires WellFormedRegistry(reg) && IsRun(reg, run) && n < |run|
    requires run[n].request.Event? || run[n].request.Targeted?
    ensures run[n].Commits() ==>
              TakenAt(reg, StoreAt(run, n), run[n].request, h, i, fired, run[n].Committed())
              && StoreAt(run, n + 1) == Commit(run[n].Committed())
  {
    ReachableConsistent(reg, run, n);
    assert ServedAt(reg, run, n);
    h, i, fired := run[n].request.key, 0, [];
    if run[n].Commits() {
      h, i, fired := ServedTaken(reg, StoreAt(run, n), run[n].request, run[n].Committed());
    }
  }

  lemma ServedTaken(reg: Registry, db: Db, request: Request, after: Tx)
    returns (h: Key, i: nat, fired: seq<JoinFired>)
    requires WellFormedRegistry(reg) && Consistent(reg, db) && (request.Event? || request.Targeted?)
    requires ServeTx(reg, db, request) == Ok(Some(after))
    ensures TakenAt(reg, db, request, h, i, fired, after)
  {
    var at, tx, trig := request.key, Begin(db), TriggerOf(request);
    if request.Targeted? {
      ResolvedRegistered(reg, request.key, request.target);
      at := HopsEnd(request.key, ResolveHops(reg, request.key, request.target).value);
    }
    h := TransitionHandled(reg, tx, trig, at, request.params, request.Event?);
    i, fired := HandlerMoves(reg, tx, trig, at, request.params, h, after);
  }

  /** The child was not tried, or answered without handling. */
  ghost predicate PassedOver(reg: Registry, tx: Tx, trig: Trigger, key: Key, params: Params, c: Compound) {
    var child := ChildKey(c.sub, key.id, c.state);
    c.sub.managed && child in tx.entities && tx.entities[child].IsActiveChild() ==>
      child.machine in reg && TransitionInTx(reg, tx, trig, child, params, true) in {Ok(AlreadySeen), Ok(NoTransition)}
  }

  /** A forwarded event goes to the first compound state, in order, whose active child handles it. */
  lemma {:induction false} ForwardFirst(
    reg: Registry, tx: Tx, trig: Trigger, key: Key, params: Params, compounds: seq<Compound>) returns (i: nat)
    requires key in tx.entities
    ensures var r := Forward(reg, tx, trig, key, params, compounds);
            r.Ok? && r.value.Forwarded? ==>
              && i < |compounds| && compounds[i].sub.managed
              && r.value.child == ChildKey(compounds[i].sub, key.id, compounds[i].state)
              && r.value.child in tx.entities && tx.entities[r.value.child].IsActiveChild()
              && forall j :: 0 <= j < i ==> PassedOver(reg, tx, trig, key, params, compounds[j])
    ensures var r := Forward(reg, tx, trig, key, params, compounds);
            r == Ok(NoTransition) ==> forall j :: 0 <= j < |compounds| ==>
              PassedOver(reg, tx, trig, key, params, compounds[j])
    decreases |compounds|
  {
    i := 0;
    if compounds != [] && PassedOver(reg, tx, trig, key, params, compounds[0]) {
      var rest := compounds[1..];
      var k := ForwardFirst(reg, tx, trig, key, params, rest);
      assert forall j :: 0 < j < |compounds| ==> compounds[j] == rest[j - 1];
      i := k + 1;
    }
  }

  /** The managed child that the region's current state gives to the entity `id`. */
  ghost predicate Offers(r: RegionDef, states: StateMap, id: string, child: Key) {
    && r.id in states && states[r.id] in r.subs && r.subs[states[r.id]].managed
    && child == Key(r.subs[states[r.id]].machineId, id + "::sub::" + states[r.id])
  }

  /** The child handled the event, itself or below it. */
  ghost predicate ChildTakes(reg: Registry, tx: Tx, trig: Trigger, params: Params, child: Key, tx': Tx) {
    && child in tx.entities && tx.entities[child].IsActiveChild() && child.machine in reg
    && var r := TransitionInTx(reg, tx, trig, child, params, true);
       r.Ok? && (r.value.Applied? || r.value.Forwarded?) && r.value.tx == tx'
  }

  /** The child, if it is active, had seen the event or has no transition for it anywhere below. */
  ghost predicate ChildDeclines(reg: Registry, tx: Tx, trig: Trigger, params: Params, child: Key) {
    child in tx.entities && tx.entities[child].IsActiveChild() ==>
      child.machine in reg && TransitionInTx(reg, tx, trig, child, params, true) in {Ok(AlreadySeen), Ok(NoTransition)}
  }

  /** None of the first `n` regions has a child that would take the event. */
  ghost predicate AllDecline(
    reg: Registry, tx: Tx, trig: Trigger, params: Params, id: string, states: StateMap, regions: seq<RegionDef>,
    n: nat)
    requires n <= |regions|
  {
    forall j, child {:trigger Offers(regions[j], states, id, child)} ::
      0 <= j < n && Offers(regions[j], states, id, child) ==> ChildDeclines(reg, tx, trig, params, child)
  }

  /** The first compound state's child takes the event, or the rest decides. */
  lemma ForwardOne(reg: Registry, tx: Tx, trig: Trigger, key: Key, params: Params, compounds: seq<Compound>)
    requires key in tx.entities && compounds != []
    ensures var c, r := compounds[0], Forward(reg, tx, trig, key, params, compounds);
            var child := Key(c.sub.machineId, key.id + "::sub::" + c.state);
            if c.sub.managed && !ChildDeclines(reg, tx, trig, params, child) then
              r.Ok? ==>
                r.value.Forwarded? && r.value.child == child && ChildTakes(reg, tx, trig, params, child, r.value.tx)
            else
              r == Forward(reg, tx, trig, key, params, compounds[1..])
  {
    var c := compounds[0];
    var child := Key(c.sub.machineId, key.id + "::sub::" + c.state);
    assert child == ChildKey(c.sub, key.id, c.state);
    ForwardStep(reg, tx, trig, key, params, compounds);
    if HasActiveChild(tx, key, c) && child.machine in reg {
      OfferDecides(TransitionInTx(reg, tx, trig, child, params, true), child);
    }
  }

  /** The outcomes of an offer: taken, refused or declined. */
  lemma OfferDecides(outcome: Result<Outcome>, child: Key)
    ensures EndsSearch(outcome) <==> outcome !in {Ok(AlreadySeen), Ok(NoTransition)}
    ensures EndsSearch(outcome) && outcome.Ok? ==> PassedUp(child, outcome) == Ok(Forwarded(outcome.value.tx, child))
    ensures outcome.Err? ==> PassedUp(child, outcome) == outcome
  {
  }

  lemma {:induction false} ForwardRegions(
    reg: Registry, tx: Tx, trig: Trigger, key: Key, params: Params, regions: seq<RegionDef>, states: StateMap)
    returns (i: nat)
    requires key in tx.entities
    ensures ForwardedTo(reg, tx, trig, key, params, regions, states, i,
                        Forward(reg, tx, trig, key, params, CompoundRegions(regions, states)))
    decreases |regions|
  {
    i := 0;
    if regions != [] {
      var r0, rest := regions[0], regions[1..];
      var compounds := CompoundRegions(regions, states);
      var k := ForwardRegions(reg, tx, trig, key, params, rest, states);
      if r0.id in states && states[r0.id] in r0.subs {
        var sub := r0.subs[states[r0.id]];
        var child := Key(sub.machineId, key.id + "::sub::" + states[r0.id]);
        assert compounds[0] == Compound(states[r0.id], r0.id, sub) && compounds[1..] == CompoundRegions(rest, states);
        ForwardOne(reg, tx, trig, key, params, compounds);
        if !sub.managed || ChildDeclines(reg, tx, trig, params, child) {
          DeclinedBefore(reg, tx, trig, key, params, regions, states, k);
          DeclinedBefore(reg, tx, trig, key, params, regions, states, |rest|);
          i := k + 1;
        }
      } else {
        DeclinedBefore(reg, tx, trig, key, params, regions, states, k);
        DeclinedBefore(reg, tx, trig, key, params, regions, states, |rest|);
        i := k + 1;
      }
    }
  }

  /** Region `i`'s child takes the event, and those before it decline; if nobody takes it, all decline. */
  ghost predicate ForwardedTo(
    reg: Registry, tx: Tx, trig: Trigger, key: Key, params: Params, regions: seq<RegionDef>, states: StateMap, i: nat,
    r: Result<Outcome>)
  {
    && (r.Ok? && r.value.Forwarded? ==>
          && i < |regions| && Offers(regions[i], states, key.id, r.value.child)
          && ChildTakes(reg, tx, trig, params, r.value.child, r.value.tx)
          && AllDecline(reg, tx, trig, params, key.id, states, regions, i))
    && (r == Ok(NoTransition) ==> AllDecline(reg, tx, trig, params, key.id, states, regions, |regions|))
  }

  lemma DeclinedBefore(
    reg: Registry, tx: Tx, trig: Trigger, key: Key, params: Params, regions: seq<RegionDef>, states: StateMap, k: nat)
    requires regions != []
    requires forall child :: Offers(regions[0], states, key.id, child) ==> ChildDeclines(reg, tx, trig, params, child)
    ensures k <= |regions| - 1 && AllDecline(reg, tx, trig, params, key.id, states, regions[1..], k) ==>
              AllDecline(reg, tx, trig, params, key.id, states, regions, k + 1)
  {
    if k <= |regions| - 1 && AllDecline(reg, tx, trig, params, key.id, states, regions[1..], k) {
      forall j, c | 0 <= j < k + 1 && Offers(regions[j], states, key.id, c)
        ensures ChildDeclines(reg, tx, trig, params, c)
      {
        if j > 0 {
          assert Offers(regions[1..][j - 1], states, key.id, c);
        }
      }
    }
  }

  /** An entity with parallel regions and no transition of its own passes an event down in the order in
      which its definition lists the regions: the first active child that handles it, itself or below,
      takes it, and the children of the regions before have declined. */
  lemma ForwardedInOrder(reg: Registry, tx: Tx, trig: Trigger, key: Key, params: Params) returns (i: nat)
    requires key in tx.entities && key.machine in reg && reg[key.machine].regions != []
    ensures ForwardedTo(reg, tx, trig, key, params, reg[key.machine].regions, tx.entities[key].states, i,
                        TransitionInTx(reg, tx, trig, key, params, true))
  {
    i := ForwardRegions(reg, tx, trig, key, params, reg[key.machine].regions, tx.entities[key].states);
  }

  ghost predicate GivesFlatChild(m: Machine, states: StateMap, id: string, child: Key) {
    var state := if "_" in states then states["_"] else "";
    state in m.subs && m.subs[state].managed && child == Key(m.subs[state].machineId, id + "::sub::" + state)
  }

  /** A flat one has one child at most to pass it to. */
  lemma ForwardedFlat(reg: Registry, tx: Tx, trig: Trigger, key: Key, params: Params, child: Key)
    requires key in tx.entities && key.machine in reg && reg[key.machine].regions == []
    ensures var m, states, r := reg[key.machine], tx.entities[key].states,
                TransitionInTx(reg, tx, trig, key, params, true);
            && (r.Ok? && r.value.Forwarded? ==>
                  GivesFlatChild(m, states, key.id, r.value.child) &&
                  ChildTakes(reg, tx, trig, params, r.value.child, r.value.tx))
            && (r == Ok(NoTransition) && GivesFlatChild(m, states, key.id, child) ==>
                  ChildDeclines(reg, tx, trig, params, child))
  {
    var compounds := CompoundStates(reg[key.machine], tx.entities[key].states);
    OneCompound(reg, tx, trig, key, params, compounds);
  }

  lemma OneCompound(reg: Registry, tx: Tx, trig: Trigger, key: Key, params: Params, compounds: seq<Compound>)
    requires key in tx.entities && |compounds| <= 1
    ensures var r := Forward(reg, tx, trig, key, params, compounds);
            if compounds == [] then r == Ok(NoTransition)
            else
              var c := compounds[0];
              var child := Key(c.sub.machineId, key.id + "::sub::" + c.state);
              if c.sub.managed && !ChildDeclines(reg, tx, trig, params, child) then
                r.Ok? ==>
                  r.value.Forwarded? && r.value.child == child && ChildTakes(reg, tx, trig, params, child, r.value.tx)
              else
                r == Ok(NoTransition)
  {
    if compounds != [] {
      ForwardOne(reg, tx, trig, key, params, compounds);
      assert compounds[1..] == [];
    }
  }

  // ---------------------------------------------------------------- unhandled events

  /** The entity has recorded this event already, so the search does not look below it. */
  ghost predicate SeenOnWay(db: Db, trig: Trigger, params: Params, start: Key, path: seq<Step>) {
    exists n: nat, a: Key {:trigger LiveAt(db, start, path[..n], a)} ::
      0 < n <= |path| && LiveAt(db, start, path[..n], a) &&
          Repeats(db.history, a, trig, params)
  }

  lemma {:induction false} CompoundListed(regions: seq<RegionDef>, states: StateMap, region: string)
    requires FindRegion(regions, region).Some? && region in states &&
             states[region] in FindRegion(regions, region).value.subs
    ensures Compound(states[region], region,
                     FindRegion(regions, region).value.subs[states[region]]) in CompoundRegions(regions, states)
    decreases |regions|
  {
    if regions[0].id != region {
      CompoundListed(regions[1..], states, region);
    }
  }

  /** A managed state that the entity is in is one of its compound states. */
  lemma ManagedListed(m: Machine, states: StateMap, region: string)
    requires region in states && m.ManagedSub(region, states[region]).Some?
    ensures Compound(states[region], region, m.ManagedSub(region, states[region]).value) in CompoundStates(m, states)
    ensures m.ManagedSub(region, states[region]).value.managed
  {
    if m.IsParallel() {
      CompoundListed(m.regions, states, region);
    }
  }

  lemma {:induction false} ForwardAnswers(
    reg: Registry, tx: Tx, trig: Trigger, key: Key, params: Params, compounds: seq<Compound>)
    requires key in tx.entities
    ensures var r := Forward(reg, tx, trig, key, params, compounds);
            r.Ok? ==> r.value.Forwarded? || r.value.NoTransition?
    decreases |compounds|
  {
    if compounds != [] {
      ForwardAnswers(reg, tx, trig, key, params, compounds[1..]);
    }
  }

  /** What the two answers without a write say of the entity itself. */
  lemma AnswerMeans(reg: Registry, tx: Tx, trig: Trigger, key: Key, params: Params)
    requires key.machine in reg
    ensures var r := TransitionInTx(reg, tx, trig, key, params, true);
            && (r == Ok(AlreadySeen) ==> Repeats(tx.history, key, trig, params))
            && (r == Ok(NoTransition) ==>
                  key in tx.entities && NoneTakes(reg[key.machine].transitions, tx.entities[key].states,
                                                  tx.entities[key].context, trig.eventType, params))
  {
    DedupMeans(tx.history, key, trig, params);
    if key in tx.entities {
      var e := tx.entities[key];
      var _ := EvaluatesToFirst(reg[key.machine].transitions, e.states, e.context, trig.eventType, params);
    }
    if key in tx.entities {
      ForwardAnswers(reg, tx, trig, key, params, CompoundStates(reg[key.machine], tx.entities[key].states));
    }
  }

  /** One level further down the path. */
  lemma UnhandledChild(reg: Registry, db: Db, trig: Trigger, parent: Key, params: Params, d: Key)
    requires Consistent(reg, db) && d in db.entities && db.entities[d].IsActiveChild() &&
             ParentKey(db.entities[d].instance.value.link) == parent
    requires parent.machine in reg && TransitionInTx(reg, Begin(db), trig, parent, params, true) == Ok(NoTransition)
    ensures d.machine in reg &&
            TransitionInTx(reg, Begin(db), trig, d, params, true) in {Ok(AlreadySeen), Ok(NoTransition)}
  {
    var link := db.entities[d].instance.value.link;
    assert Up(reg, db.entities, d);
    assert EntityOkAt(reg, db.entities, db.history, d);
    var e := db.entities[parent];
    var c := Compound(link.state, link.region, SubOf(reg, link).value);
    ManagedListed(reg[parent.machine], e.states, link.region);
    var compounds := CompoundStates(reg[parent.machine], e.states);
    var first := ForwardFirst(reg, Begin(db), trig, parent, params, compounds);
    var j :| 0 <= j < |compounds| && compounds[j] == c;
    assert PassedOver(reg, Begin(db), trig, parent, params, compounds[j]);
  }

  /** An event answered as unhandled has no live instance below the addressed entity that could have
      handled it, except below one that had already recorded it. */
  lemma {:induction false} UnhandledByAll(
    reg: Registry, db: Db, trig: Trigger, key: Key, params: Params, path: seq<Step>, d: Key)
    requires Consistent(reg, db) && key.machine in reg && LiveAt(db, key, path, d)
    requires TransitionInTx(reg, Begin(db), trig, key, params, true) == Ok(NoTransition)
    ensures SeenOnWay(db, trig, params, key, path) || (
              && d.machine in reg
              && TransitionInTx(reg, Begin(db), trig, d, params, true) == Ok(NoTransition)
              && NoneTakes(reg[d.machine].transitions, db.entities[d].states, db.entities[d].context, trig.eventType,
                           params))
    decreases |path|
  {
    AnswerMeans(reg, Begin(db), trig, key, params);
    if path != [] {
      var n := |path| - 1;
      var i := db.entities[d].instance.value;
      assert Up(reg, db.entities, d);
      SplitLast(i.above, i.link, db.entities[key].Path(), path);
      var parent := ParentKey(i.link);
      if n == 0 {
        assert i.above == db.entities[key].Path() && path[..0] == [];
      }
      UnhandledByAll(reg, db, trig, key, params, path[..n], parent);
      if SeenOnWay(db, trig, params, key, path[..n]) {
        SeenFurther(db, trig, params, key, path);
      } else {
        UnhandledChild(reg, db, trig, parent, params, d);
        assert path[..n + 1] == path;
        AnswerMeans(reg, Begin(db), trig, d, params);
        assert LiveAt(db, key, path[..n + 1], d);
      }
    }
  }

  lemma SeenFurther(db: Db, trig: Trigger, params: Params, key: Key, path: seq<Step>)
    requires path != [] && SeenOnWay(db, trig, params, key, path[..|path| - 1])
    ensures SeenOnWay(db, trig, params, key, path)
  {
    var n: nat, a: Key :| 0 < n <= |path| - 1 && LiveAt(db, key, path[..|path| - 1][..n], a)
                          && Repeats(db.history, a, trig, params);
    assert path[..|path| - 1][..n] == path[..n];
  }

  // ---------------------------------------------------------------- the whole answer

  /** The answer to an event at an entity, case by case: an absent entity, a repeated event, one recorded
      with other params and an ended instance are told from the store; then the entity's own transition
      decides, if it has one for the event, and else its children. */
  lemma EventDecided(reg: Registry, db: Db, trig: Trigger, key: Key, params: Params)
    requires WellFormedRegistry(reg) && Consistent(reg, db) && key.machine in reg
    ensures var r := TransitionInTx(reg, Begin(db), trig, key, params, true);
            if key !in db.entities then r == Err(EntityNotFound)
            else
              var m, e := reg[key.machine], db.entities[key];
              if Repeats(db.history, key, trig, params) then r == Ok(AlreadySeen)
              else if !NotRecorded(db.history, key, trig) then r == Err(EventIdentityConflict)
              else if !e.Live() then r == Err(InstanceNotActive)
              else if !NoneTakes(m.transitions, e.states, e.context, trig.eventType, params) then
                if r.Ok? then r.value.Applied? else StartRefusal(r.error)
              else
                r == Forward(reg, Begin(db), trig, key, params, CompoundStates(m, e.states))
  {
    DedupMeans(db.history, key, trig, params);
    if key in db.entities && Receives(Begin(db), trig, key, params) {
      var m, e := reg[key.machine], db.entities[key];
      var i := EvaluatesToFirst(m.transitions, e.states, e.context, trig.eventType, params);
      TakenOrPassedOn(reg, Begin(db), trig, key, params, true);
      if OwnTransition(reg, e, key, trig.eventType, params).Some? {
        EventSpecReady(reg, Begin(db), trig, key, m.transitions[i], params);
        WriteEntityTree(reg, Begin(db), trig, key, e, HandlerSpec(reg, Begin(db), trig, params, key));
      }
    }
  }
}
