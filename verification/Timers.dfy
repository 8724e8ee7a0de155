/** Timer truth. An entity may also be written by a writer that bumps its version but does not
    maintain entries; the effective entries stay truthful under any interleaving. And the scheduler's
    SQL prefilter agrees with the re-check made before a timer fires. */
module Timers {
  import opened Models
  import opened Engine
  import opened Store
  import opened WriteProofs
  import opened LedgerProofs
  import opened Requests

  // ---------------------------------------------------------------- mixed writers

  /** An entity row together with the time each region was last really entered. */
  datatype Tracked = Tracked(e: Entity, entered: map<string, int>)

  datatype Write =
    | EngineWrite(spec: WriteSpec, row: nat, instance: Option<Instance>, now: int)
    | EngineCancel(end: RowRef, now: int)
    | ForeignWrite(states: StateMap, reentered: set<string>, version: int, now: int)

  /** The regions an engine write enters. */
  function EnteredRegions(spec: WriteSpec): set<string> {
    {spec.region} + set j | j in spec.joins :: j.targetRegion
  }

  /** What each writer may do. A foreign writer enters some region; in a flat row, its only one. */
  ghost predicate Allowed(t: Tracked, w: Write) {
    && t.e.updatedAt <= w.now
    && match w
       case EngineWrite(spec, _, _, _) =>
         && spec.region in t.e.states
         && JoinsWithin(spec.joins, t.e.states.Keys)
         && spec.newStates == ApplyFired(t.e.states[spec.region := spec.to], spec.joins)
       case EngineCancel(_, _) =>
         t.e.instance.Some?
       case ForeignWrite(states, reentered, version, _) =>
         && states.Keys == t.e.states.Keys && reentered <= states.Keys
         && (forall r :: r in states && r !in reentered ==> states[r] == t.e.states[r])
         && (!t.e.IsParallelRow() ==> reentered == states.Keys)
         && version > t.e.version
  }

  function Reenter(entered: map<string, int>, regions: set<string>, now: int): map<string, int> {
    map r | r in entered :: if r in regions then now else entered[r]
  }

  function WriteBy(t: Tracked, w: Write): Tracked
    requires w.EngineCancel? ==> t.e.instance.Some?
  {
    match w
    case EngineWrite(spec, row, instance, now) =>
      var entries := AdvanceEntries(EffectiveEntries(t.e), spec.newStates, WriteEntered(t.e, spec, row),
                                    t.e.version + 1, now);
      Tracked(WrittenEntity(t.e, spec, entries, instance, now), Reenter(t.entered, EnteredRegions(spec), now))
    case EngineCancel(end, now) =>
      Tracked(CancelledEntity(t.e, end, now), t.entered)
    case ForeignWrite(states, reentered, version, now) =>
      Tracked(t.e.(states := states, version := version, updatedAt := now), Reenter(t.entered, reentered, now))
  }

  /** Never before the true entry, and exact unless only an upper bound is claimed. */
  ghost predicate TruthfulAt(t: Tracked, r: string) {
    && r in t.e.states && r in t.entered
    && t.entered[r] <= t.e.updatedAt
    && t.entered[r] <= EntryOf(t.e, r).enteredAt
    && (EntryOf(t.e, r).basis != LegacyUpperBound ==> EntryOf(t.e, r).enteredAt == t.entered[r])
  }

  ghost predicate Truthful(t: Tracked) {
    && t.entered.Keys == t.e.states.Keys
    && forall r {:trigger TruthfulAt(t, r)} :: r in t.e.states ==> TruthfulAt(t, r)
  }

  /** A stored document is never from a later version than its row. */
  ghost predicate Sane(e: Entity) {
    e.version >= 1 && (e.entries.Some? ==> e.entries.value.version <= e.version)
  }

  /** An entity at its creation, with a document or without. */
  ghost predicate JustCreated(t: Tracked) {
    && t.e.version == 1 && t.e.updatedAt == t.e.createdAt
    && t.entered.Keys == t.e.states.Keys
    && (forall r :: r in t.e.states ==> t.entered[r] == t.e.createdAt)
    && (t.e.entries.None? || t.e.entries == Some(InitialEntries(t.e.states, t.e.createdAt)))
  }

  /** The region's last entry in a write is one of those it entered. */
  lemma {:induction false} LastEnteredRegion(e: Entity, spec: WriteSpec, row: nat, n: nat, r: string)
    requires n <= |spec.joins|
    ensures LastEntered(WriteEntered(e, spec, row)[..n + 1], r).Some? <==>
              r == spec.region || exists i :: 0 <= i < n && spec.joins[i].targetRegion == r
    decreases n
  {
    var all := WriteEntered(e, spec, row);
    if n == 0 {
      assert all[..1] == [all[0]];
      assert all[..1][..0] == [];
    } else {
      LastEnteredRegion(e, spec, row, n - 1, r);
      assert all[..n + 1][..n] == all[..n];
    }
  }

  lemma EnteredByWrite(e: Entity, spec: WriteSpec, row: nat, r: string)
    ensures LastEntered(WriteEntered(e, spec, row), r).Some? <==> r in EnteredRegions(spec)
  {
    var all := WriteEntered(e, spec, row);
    assert all[..|spec.joins| + 1] == all;
    LastEnteredRegion(e, spec, row, |spec.joins|, r);
  }

  /** An engine write gives a new entry to the regions it enters and keeps every other one. */
  lemma EngineEntry(t: Tracked, w: Write, r: string)
    requires w.EngineWrite? && Allowed(t, w) && r in t.e.states
    ensures var e' := WriteBy(t, w).e;
            && r in e'.states
            && if r in EnteredRegions(w.spec)
               then EntryOf(e', r).enteredAt == w.now && EntryOf(e', r).basis == ByTransition
               else EntryOf(e', r) == EntryOf(t.e, r) && e'.states[r] == t.e.states[r]
  {
    var all := WriteEntered(t.e, w.spec, w.row);
    assert all[..|w.spec.joins| + 1] == all && w.spec.joins[..|w.spec.joins|] == w.spec.joins;
    EnteredByWrite(t.e, w.spec, w.row, r);
    LastEnteredState(t.e, w.spec, w.row, |w.spec.joins|, r);
  }

  /** Without a document of its version the row speaks for itself: of its creation if nothing has written
      it, and else of its last write, exactly if it is flat. */
  lemma RowEntry(e: Entity, r: string)
    requires r in e.states && (e.entries.Some? ==> e.entries.value.version != e.version)
    ensures EntryOf(e, r) ==
              if e.version <= 1 && e.updatedAt == e.createdAt then
                RegionEntry(e.states[r], e.version, e.createdAt, Created, None)
              else
                RegionEntry(e.states[r], e.version, e.updatedAt,
                            if e.states.Keys == {"_"} then LegacyExact else LegacyUpperBound, None)
  {
    EncodeRoundTrip(e.states);
  }

  lemma CancelEntry(e: Entity, end: RowRef, now: int, r: string)
    requires e.instance.Some? && r in e.states
    ensures EntryOf(CancelledEntity(e, end, now), r) == EntryOf(e, r)
  {
  }

  lemma EngineWriteTruthful(t: Tracked, w: Write)
    requires Truthful(t) && Sane(t.e) && w.EngineWrite? && Allowed(t, w)
    ensures Truthful(WriteBy(t, w)) && Sane(WriteBy(t, w).e)
  {
    var t' := WriteBy(t, w);
    assert t.e.states[w.spec.region := w.spec.to].Keys == t.e.states.Keys;
    ApplyFiredKeys(t.e.states[w.spec.region := w.spec.to], w.spec.joins);
    forall r | r in t'.e.states ensures TruthfulAt(t', r) {
      assert TruthfulAt(t, r);
      EngineEntry(t, w, r);
    }
  }

  lemma WriteTruthful(t: Tracked, w: Write)
    requires Truthful(t) && Sane(t.e) && Allowed(t, w)
    ensures Truthful(WriteBy(t, w)) && Sane(WriteBy(t, w).e)
  {
    var t' := WriteBy(t, w);
    match w
    case EngineWrite(_, _, _, _) =>
      EngineWriteTruthful(t, w);
    case EngineCancel(end, now) =>
      forall r | r in t'.e.states ensures TruthfulAt(t', r) {
        assert TruthfulAt(t, r);
        CancelEntry(t.e, end, now, r);
      }
    case ForeignWrite(states, reentered, version, now) =>
      SameEncoding(t.e.states, states);
      forall r | r in t'.e.states ensures TruthfulAt(t', r) {
        assert TruthfulAt(t, r);
      }
  }

  lemma SameEncoding(a: StateMap, b: StateMap)
    requires a.Keys == b.Keys
    ensures Encode(a).Object? <==> Encode(b).Object?
  {
    EncodeRoundTrip(a);
    EncodeRoundTrip(b);
  }

  function WritesBy(t: Tracked, writes: seq<Write>): Tracked
    requires AllAllowed(t, writes)
    decreases |writes|
  {
    if writes == [] then t else WritesBy(WriteBy(t, writes[0]), writes[1..])
  }

  ghost predicate AllAllowed(t: Tracked, writes: seq<Write>)
    decreases |writes|
  {
    writes == [] || (Allowed(t, writes[0]) && AllAllowed(WriteBy(t, writes[0]), writes[1..]))
  }

  lemma {:induction false} AlwaysTruthful(t: Tracked, writes: seq<Write>)
    requires Truthful(t) && Sane(t.e) && AllAllowed(t, writes)
    ensures Truthful(WritesBy(t, writes))
    decreases |writes|
  {
    if writes != [] {
      WriteTruthful(t, writes[0]);
      AlwaysTruthful(WriteBy(t, writes[0]), writes[1..]);
    }
  }

  /** For any interleaving of writers since creation, a timer is never armed before its region's true
      last entry, and exactly at it unless the entry is only an upper bound. */
  lemma MixedWriterTimers(t: Tracked, writes: seq<Write>, r: string)
    requires JustCreated(t) && AllAllowed(t, writes)
    ensures var t' := WritesBy(t, writes);
            r in t'.e.states ==>
              && r in t'.entered
              && t'.entered[r] <= EntryOf(t'.e, r).enteredAt
              && (EntryOf(t'.e, r).basis != LegacyUpperBound ==> EntryOf(t'.e, r).enteredAt == t'.entered[r])
  {
    forall s | s in t.e.states ensures TruthfulAt(t, s) {
    }
    AlwaysTruthful(t, writes);
    var t' := WritesBy(t, writes);
    if r in t'.e.states {
      assert TruthfulAt(t', r);
    }
  }

  // ---------------------------------------------------------------- the prefilter

  /** The SQL predicate on the state column: a flat row holds the state itself, a parallel one is
      searched as a JSON object, which a plain string is not. */
  predicate StateMatches(m: Machine, column: Encoded, region: string, from: string) {
    if m.IsParallel() then
      column.Object? && region in column.states && column.states[region] == from
    else
      column == Plain(from)
  }

  /** The stored entry time while the document is current for that state, else the row's own time. */
  function EntryTime(e: Entity, region: string, from: string): int {
    if e.entries.Some? && e.entries.value.version == e.version && region in e.entries.value.regions
       && e.entries.value.regions[region].state == from
    then e.entries.value.regions[region].enteredAt
    else e.updatedAt
  }

  /** An entity that the timer query selects. */
  predicate Candidate(m: Machine, e: Entity, region: string, from: string, cutoff: int) {
    && StateMatches(m, Encode(e.states), region, from)
    && (e.instance.Some? ==> e.instance.value.status == Active)
    && EntryTime(e, region, from) <= cutoff
  }

  /** A parallel machine whose only region has the default name is stored like a flat one. */
  predicate StoredAsFlat(m: Machine) {
    m.IsParallel() && m.RegionIds() == {DEFAULT_REGION}
  }

  /** On one snapshot the query selects an entity exactly when the timer would find it due, except for
      machines that are parallel but stored as flat: those it never selects. */
  lemma PrefilterAgrees(m: Machine, e: Entity, region: string, from: string, timeoutMs: int, now: int)
    requires e.states.Keys == m.RegionIds() && region in e.states
    requires I64_MIN <= EntryOf(e, region).enteredAt + timeoutMs <= I64_MAX
    ensures Candidate(m, e, region, from, now - timeoutMs) <==>
              TimeoutReady(e, region, from, timeoutMs, now) && !StoredAsFlat(m)
  {
    EncodeRoundTrip(e.states);
  }
}
