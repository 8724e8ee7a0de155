/** The engine's loops over mutable variables, each proved to compute its function, and what those
    functions mean. */
module EngineSteps {
  import opened Names
  import opened Models
  import opened Engine

  // ---------------------------------------------------------------- evaluation

  /** All conditions hold: a conjunction over regions. */
  ghost predicate Meets(states: StateMap, when: StateMap) {
    forall r :: r in when ==> r in states && states[r] == when[r]
  }

  /** Without a region of its own a transition is of the region `_`. */
  ghost predicate InSource(t: Transition, states: StateMap) {
    var region := if t.region.Some? then t.region.value else "_";
    region in states && states[region] == t.from
  }

  /** The event is the transition's, its region is in its source state, and there is no guard or one that
      holds of the event's params and the entity's context. A timeout is no such guard. */
  ghost predicate Takes(t: Transition, states: StateMap, context: Context, eventType: EventType, params: Params) {
    && t.on == eventType
    && InSource(t, states)
    && (t.guard.NoGuard? || (t.guard.Condition? && t.guard.test(params, context)))
  }

  /** The first transition in definition order that takes the event. */
  ghost predicate FirstTakes(
    transitions: seq<Transition>, i: nat, states: StateMap, context: Context, eventType: EventType, params: Params)
  {
    && i < |transitions|
    && Takes(transitions[i], states, context, eventType, params)
    && forall j :: 0 <= j < i ==> !Takes(transitions[j], states, context, eventType, params)
  }

  ghost predicate NoneTakes(
    transitions: seq<Transition>, states: StateMap, context: Context, eventType: EventType, params: Params)
  {
    forall j :: 0 <= j < |transitions| ==> !Takes(transitions[j], states, context, eventType, params)
  }

  lemma TakesIfEnabled(t: Transition, states: StateMap, context: Context, eventType: EventType, params: Params)
    ensures Takes(t, states, context, eventType, params) <==> Enabled(t, states, context, eventType, params)
  {
  }

  /** Evaluation finds the first transition that takes the event, if there is one. */
  lemma {:induction false} EvaluatesToFirst(
    transitions: seq<Transition>, states: StateMap, context: Context, eventType: EventType, params: Params)
    returns (i: nat)
    ensures var found := Evaluate(transitions, states, context, eventType, params);
            if found.Some? then
              FirstTakes(transitions, i, states, context, eventType, params) && found.value == transitions[i]
            else
              NoneTakes(transitions, states, context, eventType, params)
    decreases |transitions|
  {
    i := 0;
    if transitions != [] {
      TakesIfEnabled(transitions[0], states, context, eventType, params);
      if !Enabled(transitions[0], states, context, eventType, params) {
        var rest := transitions[1..];
        var k := EvaluatesToFirst(rest, states, context, eventType, params);
        i := k + 1;
        forall j | 0 < j < |transitions| ensures transitions[j] == rest[j - 1] {
        }
      }
    }
  }

  /** Scan the transitions, returning at the first that is enabled. */
  method EvaluateEvent(
    transitions: seq<Transition>, states: StateMap, context: Context, eventType: EventType, params: Params)
    returns (found: Option<Transition>)
    ensures found == Evaluate(transitions, states, context, eventType, params)
    ensures found.Some? ==>
      exists i: nat :: FirstTakes(transitions, i, states, context, eventType, params) && found.value == transitions[i]
    ensures found.None? ==> NoneTakes(transitions, states, context, eventType, params)
  {
    assert transitions[0..] == transitions;
    for i := 0 to |transitions|
      invariant forall j :: 0 <= j < i ==> !Takes(transitions[j], states, context, eventType, params)
      invariant Evaluate(transitions, states, context, eventType, params)
             == Evaluate(transitions[i..], states, context, eventType, params)
    {
      var t := transitions[i];
      assert transitions[i..][0] == t && transitions[i..][1..] == transitions[i + 1..];
      var region := t.Region();
      if region !in states {
        continue;
      }
      if states[region] == t.from && t.on == eventType {
        if GuardPasses(t.guard, params, context) {
          assert FirstTakes(transitions, i, states, context, eventType, params);
          return Some(t);
        }
      }
    }
    assert transitions[|transitions|..] == [];
    return None;
  }

  // ---------------------------------------------------------------- joins

  /** The join's conditions all hold and its target region is elsewhere: it fires into its target. */
  ghost predicate FiredBy(j: JoinDef, fired: JoinFired, states: StateMap) {
    && Meets(states, j.when)
    && fired.targetRegion == j.targetRegion && fired.targetState == j.targetState
    && fired.from == (if j.targetRegion in states then states[j.targetRegion] else "")
    && fired.from != j.targetState
  }

  ghost predicate SomeFires(joins: seq<JoinDef>, fired: JoinFired, states: StateMap) {
    exists i {:trigger joins[i]} :: 0 <= i < |joins| && FiredBy(joins[i], fired, states)
  }

  /** One pass fires exactly the joins that are ready on its snapshot. */
  lemma {:induction false} PassExact(joins: seq<JoinDef>, states: StateMap, fired: JoinFired)
    ensures fired in CheckJoins(joins, states) <==> SomeFires(joins, fired, states)
    decreases |joins|
  {
    if joins != [] {
      PassExact(joins[1..], states, fired);
      if SomeFires(joins[1..], fired, states) {
        var i :| 0 <= i < |joins[1..]| && FiredBy(joins[1..][i], fired, states);
        assert joins[i + 1] == joins[1..][i];
      }
      if SomeFires(joins, fired, states) {
        var i :| 0 <= i < |joins| && FiredBy(joins[i], fired, states);
        assert i > 0 ==> joins[1..][i - 1] == joins[i];
      }
    }
  }

  /** A pass takes the joins in definition order, each at most once. */
  lemma {:induction false} PassInOrder(a: seq<JoinDef>, j: JoinDef, b: seq<JoinDef>, states: StateMap, fired: JoinFired)
    ensures FiredBy(j, fired, states) ==>
              CheckJoins(a + [j] + b, states) == CheckJoins(a, states) + [fired] + CheckJoins(b, states)
    ensures !Meets(states, j.when) ==> CheckJoins(a + [j] + b, states) == CheckJoins(a, states) + CheckJoins(b, states)
    decreases |a|
  {
    var all := a + [j] + b;
    if a == [] {
      assert all[0] == j && all[1..] == b;
    } else {
      PassInOrder(a[1..], j, b, states, fired);
      assert all[0] == a[0] && all[1..] == a[1..] + [j] + b;
    }
  }

  /** Entered targets: the last one of each region counts, and no other region moves. */
  lemma {:induction false} LastTargetCounts(states: StateMap, fired: seq<JoinFired>, r: string)
    ensures var after := ApplyFired(states, fired);
            && (r in after <==> r in states || exists i :: 0 <= i < |fired| && fired[i].targetRegion == r)
            && ((forall i :: 0 <= i < |fired| ==> fired[i].targetRegion != r) && r in states ==> after[r] == states[r])
            && forall i :: 0 <= i < |fired| && fired[i].targetRegion == r
                           && (forall k :: i < k < |fired| ==> fired[k].targetRegion != r) ==>
                 after[r] == fired[i].targetState
    decreases |fired|
  {
    if fired != [] {
      var n := |fired| - 1;
      LastTargetCounts(states, fired[..n], r);
      assert forall i :: 0 <= i < n ==> fired[..n][i] == fired[i];
    }
  }

  /** Every join of a cascade has all its conditions met by the states that some earlier ones left. */
  ghost predicate ExplainedAt(joins: seq<JoinDef>, states: StateMap, fired: seq<JoinFired>, k: nat)
    requires k < |fired|
  {
    exists p: nat, j {:trigger FiredBy(j, fired[k], ApplyFired(states, fired[..p]))} ::
      p <= k && j in joins && FiredBy(j, fired[k], ApplyFired(states, fired[..p]))
  }

  lemma {:induction false} CascadeExplained(joins: seq<JoinDef>, states: StateMap, depth: nat, k: nat)
    requires k < |JoinCascade(joins, states, depth)|
    ensures ExplainedAt(joins, states, JoinCascade(joins, states, depth), k)
    decreases depth
  {
    var pass := CheckJoins(joins, states);
    var after := ApplyFired(states, pass);
    var rest := JoinCascade(joins, after, depth - 1);
    if k < |pass| {
      FirstPassExplained(joins, states, rest, k);
    } else {
      CascadeExplained(joins, after, depth - 1, k - |pass|);
      LaterPassExplained(joins, states, pass, rest, k);
    }
  }

  lemma FirstPassExplained(joins: seq<JoinDef>, states: StateMap, rest: seq<JoinFired>, k: nat)
    requires k < |CheckJoins(joins, states)|
    ensures ExplainedAt(joins, states, CheckJoins(joins, states) + rest, k)
  {
    var pass := CheckJoins(joins, states);
    var fired := pass + rest;
    PassExact(joins, states, pass[k]);
    assert pass[k] in pass && pass[k] == fired[k];
    var i :| 0 <= i < |joins| && FiredBy(joins[i], fired[k], states);
    assert fired[..0] == [] && joins[i] in joins;
    assert FiredBy(joins[i], fired[k], ApplyFired(states, fired[..0]));
  }

  lemma LaterPassExplained(
    joins: seq<JoinDef>, states: StateMap, pass: seq<JoinFired>, rest: seq<JoinFired>, k: nat)
    requires |pass| <= k < |pass| + |rest|
    requires ExplainedAt(joins, ApplyFired(states, pass), rest, k - |pass|)
    ensures ExplainedAt(joins, states, pass + rest, k)
  {
    var fired := pass + rest;
    var p: nat, j :| p <= k - |pass| && j in joins &&
                     FiredBy(j, rest[k - |pass|], ApplyFired(ApplyFired(states, pass), rest[..p]));
    ApplyFiredConcat(states, pass, rest[..p]);
    assert fired[..|pass| + p] == pass + rest[..p];
    assert FiredBy(j, fired[k], ApplyFired(states, fired[..|pass| + p]));
  }

  /** No join has all its conditions met while its target is elsewhere. */
  ghost predicate Settles(joins: seq<JoinDef>, states: StateMap) {
    forall j :: j in joins && Meets(states, j.when) ==>
      (if j.targetRegion in states then states[j.targetRegion] else "") == j.targetState
  }

  lemma SettlesIffNoneReady(joins: seq<JoinDef>, states: StateMap)
    ensures Settles(joins, states) <==> CheckJoins(joins, states) == []
  {
    var pass := CheckJoins(joins, states);
    if pass != [] {
      PassExact(joins, states, pass[0]);
      var i :| 0 <= i < |joins| && FiredBy(joins[i], pass[0], states);
      assert joins[i] in joins;
    } else {
      forall j | j in joins && Meets(states, j.when)
        ensures (if j.targetRegion in states then states[j.targetRegion] else "") == j.targetState
      {
        var i :| 0 <= i < |joins| && joins[i] == j;
        var fired := JoinFired(j.targetRegion, if j.targetRegion in states then states[j.targetRegion] else "",
                               j.targetState);
        PassExact(joins, states, fired);
        assert FiredBy(joins[i], fired, states) ==> fired in pass;
      }
    }
  }

  /** Every fired join was due, none is left unless the passes ran out, and if no join had its conditions
      met at first then none fired. */
  ghost predicate JoinsExplained(joins: seq<JoinDef>, states: StateMap, fired: seq<JoinFired>, depth: nat) {
    && (forall k {:trigger ExplainedAt(joins, states, fired, k)} ::
          0 <= k < |fired| ==> ExplainedAt(joins, states, fired, k))
    && (Settles(joins, ApplyFired(states, fired)) || |fired| >= depth)
    && ((forall j :: j in joins ==> !Meets(states, j.when)) ==> fired == [])
  }

  lemma CascadeIsExplained(joins: seq<JoinDef>, states: StateMap, depth: nat)
    ensures JoinsExplained(joins, states, JoinCascade(joins, states, depth), depth)
  {
    var fired := JoinCascade(joins, states, depth);
    forall k | 0 <= k < |fired| ensures ExplainedAt(joins, states, fired, k) {
      CascadeExplained(joins, states, depth, k);
    }
    CascadeStops(joins, states, depth);
    if forall j :: j in joins ==> !Meets(states, j.when) {
      NoneMetNoneFires(joins, states);
    }
  }

  lemma {:induction false} NoneMetNoneFires(joins: seq<JoinDef>, states: StateMap)
    requires forall j :: j in joins ==> !Meets(states, j.when)
    ensures CheckJoins(joins, states) == []
    decreases |joins|
  {
    if joins != [] {
      assert joins[0] in joins;
      NoneMetNoneFires(joins[1..], states);
    }
  }

  lemma PassDone(joins: seq<JoinDef>, states: StateMap, done: seq<JoinFired>, before: StateMap, depth: nat)
    requires depth > 0 && CheckJoins(joins, before) != [] && before == ApplyFired(states, done)
    ensures var pass := CheckJoins(joins, before);
            var after := ApplyFired(before, pass);
            && after == ApplyFired(states, done + pass)
            && done + JoinCascade(joins, before, depth) == done + pass + JoinCascade(joins, after, depth - 1)
  {
    var pass := CheckJoins(joins, before);
    ApplyFiredConcat(states, done, pass);
    var rest := JoinCascade(joins, ApplyFired(before, pass), depth - 1);
    assert done + (pass + rest) == done + pass + rest;
  }

  /** One pass: enter the targets of the satisfied joins, in order. */
  method EnterTargets(
    states: StateMap, done: seq<JoinFired>,
    satisfied: seq<JoinFired>) returns (after: StateMap, fired: seq<JoinFired>)
    ensures fired == done + satisfied && after == ApplyFired(states, satisfied)
  {
    after, fired := states, done;
    assert satisfied[..0] == [];
    for i := 0 to |satisfied|
      invariant fired == done + satisfied[..i]
      invariant after == ApplyFired(states, satisfied[..i])
    {
      assert satisfied[..i + 1][..i] == satisfied[..i];
      after := after[satisfied[i].targetRegion := satisfied[i].targetState];
      fired := fired + [satisfied[i]];
    }
    assert satisfied[..|satisfied|] == satisfied;
  }

  /** Fire ready joins pass by pass, at most `maxDepth` passes, entering their targets in order. */
  method ApplyJoins(
    joins: seq<JoinDef>, states: StateMap, maxDepth: nat) returns (after: StateMap, fired: seq<JoinFired>)
    ensures fired == JoinCascade(joins, states, maxDepth)
    ensures after == ApplyFired(states, fired)
  {
    after, fired := states, [];
    var depth := 0;
    assert fired + JoinCascade(joins, states, maxDepth) == JoinCascade(joins, states, maxDepth);
    while depth < maxDepth
      invariant depth <= maxDepth
      invariant after == ApplyFired(states, fired)
      invariant fired + JoinCascade(joins, after, maxDepth - depth) == JoinCascade(joins, states, maxDepth)
    {
      var satisfied := CheckJoins(joins, after);
      if satisfied == [] {
        break;
      }
      PassDone(joins, states, fired, after, maxDepth - depth);
      after, fired := EnterTargets(after, fired, satisfied);
      depth := depth + 1;
    }
    assert fired + [] == fired;
  }

  /** The cascade stops with no join ready, unless it used up its passes, each of which fired a join. */
  lemma {:induction false} CascadeStops(joins: seq<JoinDef>, states: StateMap, depth: nat)
    ensures var fired := JoinCascade(joins, states, depth);
            Settles(joins, ApplyFired(states, fired)) || |fired| >= depth
    decreases depth
  {
    SettlesIffNoneReady(joins, states);
    if depth > 0 && CheckJoins(joins, states) != [] {
      var pass := CheckJoins(joins, states);
      CascadeStops(joins, ApplyFired(states, pass), depth - 1);
      ApplyFiredConcat(states, pass, JoinCascade(joins, ApplyFired(states, pass), depth - 1));
    }
  }

  /** No two joins enter one region in different states. */
  predicate TargetsAgree(joins: seq<JoinDef>) {
    forall i, j :: 0 <= i < |joins| && 0 <= j < |joins| && joins[i].targetRegion == joins[j].targetRegion ==>
      joins[i].targetState == joins[j].targetState
  }

  predicate InTarget(j: JoinDef, states: StateMap) {
    j.targetRegion in states && states[j.targetRegion] == j.targetState
  }

  /** The joins whose target is not entered: only these can still fire. */
  function Unentered(joins: seq<JoinDef>, states: StateMap): (n: nat)
    ensures n <= |joins|
  {
    if joins == [] then 0 else Unentered(joins[1..], states) + if InTarget(joins[0], states) then 0 else 1
  }

  /** Fired joins that agree with `j` about its region keep `j` in its target, or put it there. */
  lemma {:induction false} EnteredStays(j: JoinDef, states: StateMap, fired: seq<JoinFired>)
    requires forall i :: 0 <= i < |fired| && fired[i].targetRegion == j.targetRegion ==>
               fired[i].targetState == j.targetState
    requires InTarget(j, states) || exists i :: 0 <= i < |fired| && fired[i].targetRegion == j.targetRegion
    ensures InTarget(j, ApplyFired(states, fired))
    decreases |fired|
  {
    if fired != [] && fired[|fired| - 1].targetRegion != j.targetRegion {
      EnteredStays(j, states, fired[..|fired| - 1]);
    }
  }

  /** After a pass, every join that fired in it and every join that was in its target is in its target. */
  lemma AfterPass(joins: seq<JoinDef>, states: StateMap, j: JoinDef)
    requires TargetsAgree(joins) && j in joins && (InTarget(j, states) || JoinReady(j, states))
    ensures InTarget(j, ApplyFired(states, CheckJoins(joins, states)))
  {
    var pass := CheckJoins(joins, states);
    var at :| 0 <= at < |joins| && joins[at] == j;
    forall i | 0 <= i < |pass| && pass[i].targetRegion == j.targetRegion ensures pass[i].targetState == j.targetState {
      PassExact(joins, states, pass[i]);
      assert pass[i] in pass;
    }
    if JoinReady(j, states) {
      var fired := JoinFired(j.targetRegion, StateOr(states, j.targetRegion, ""), j.targetState);
      PassExact(joins, states, fired);
      assert FiredBy(joins[at], fired, states);
    }
    EnteredStays(j, states, pass);
  }

  lemma {:induction false} FewerUnentered(joins: seq<JoinDef>, before: StateMap, after: StateMap)
    requires forall j :: j in joins && InTarget(j, before) ==> InTarget(j, after)
    ensures Unentered(joins, after) <= Unentered(joins, before)
    ensures (exists j :: j in joins && !InTarget(j, before) && InTarget(j, after)) ==>
              Unentered(joins, after) < Unentered(joins, before)
    decreases |joins|
  {
    if joins != [] {
      FewerUnentered(joins[1..], before, after);
      assert forall j :: j in joins <==> j == joins[0] || j in joins[1..];
    }
  }

  lemma {:induction false} NoneLeft(joins: seq<JoinDef>, states: StateMap)
    requires Unentered(joins, states) == 0
    ensures CheckJoins(joins, states) == []
    decreases |joins|
  {
    if joins != [] {
      NoneLeft(joins[1..], states);
    }
  }

  lemma PassShrinks(joins: seq<JoinDef>, states: StateMap)
    requires TargetsAgree(joins) && CheckJoins(joins, states) != []
    ensures Unentered(joins, ApplyFired(states, CheckJoins(joins, states))) < Unentered(joins, states)
  {
    var pass := CheckJoins(joins, states);
    var after := ApplyFired(states, pass);
    PassExact(joins, states, pass[0]);
    var i :| 0 <= i < |joins| && FiredBy(joins[i], pass[0], states);
    AfterPass(joins, states, joins[i]);
    assert joins[i] in joins && !InTarget(joins[i], states);
    forall j | j in joins && InTarget(j, states) ensures InTarget(j, after) {
      AfterPass(joins, states, j);
    }
    FewerUnentered(joins, states, after);
  }

  /** Where a cascade ends, one pass at a time. */
  lemma CascadeEnd(joins: seq<JoinDef>, states: StateMap, depth: nat)
    ensures var pass := CheckJoins(joins, states);
            ApplyFired(states, JoinCascade(joins, states, depth)) ==
              if depth == 0 || pass == [] then states
              else ApplyFired(ApplyFired(states, pass), JoinCascade(joins, ApplyFired(states, pass), depth - 1))
  {
    if depth > 0 {
      var pass := CheckJoins(joins, states);
      ApplyFiredConcat(states, pass, JoinCascade(joins, ApplyFired(states, pass), depth - 1));
    }
  }

  lemma {:induction false} UnenteredSettles(joins: seq<JoinDef>, states: StateMap, depth: nat)
    requires TargetsAgree(joins) && Unentered(joins, states) <= depth
    ensures CheckJoins(joins, ApplyFired(states, JoinCascade(joins, states, depth))) == []
    decreases depth
  {
    CascadeEnd(joins, states, depth);
    if depth == 0 {
      NoneLeft(joins, states);
    } else if CheckJoins(joins, states) != [] {
      PassShrinks(joins, states);
      UnenteredSettles(joins, ApplyFired(states, CheckJoins(joins, states)), depth - 1);
    }
  }

  /** If no two joins enter one region in different states, each fires in at most one pass: with no more
      joins than passes the cascade ends with none ready, from any states. */
  lemma CascadeSettles(joins: seq<JoinDef>, states: StateMap, depth: nat)
    requires TargetsAgree(joins) && |joins| <= depth
    ensures Settles(joins, ApplyFired(states, JoinCascade(joins, states, depth)))
  {
    UnenteredSettles(joins, states, depth);
    SettlesIffNoneReady(joins, ApplyFired(states, JoinCascade(joins, states, depth)));
  }

  // ---------------------------------------------------------------- both conditions are needed

  function Link(i: nat): (region: string)
    ensures |region| == i
  {
    seq(i, _ => 'r')
  }

  function LinkJoin(i: nat): JoinDef {
    JoinDef(map[Link(i) := "on"], Link(i + 1), "on")
  }

  /** Join `i` waits for region `i` and enters region `i + 1`. */
  function Chain(n: nat): (joins: seq<JoinDef>)
    ensures |joins| == n
    ensures forall i :: 0 <= i < n ==> joins[i] == LinkJoin(i)
  {
    seq(n, i requires 0 <= i < n => LinkJoin(i))
  }

  /** The first `k + 1` regions are entered. */
  function Lit(k: nat): StateMap {
    if k == 0 then map[Link(0) := "on"] else Lit(k - 1)[Link(k) := "on"]
  }

  lemma {:induction false} LinkIn(i: nat, k: nat)
    ensures StateOr(Lit(k), Link(i), "") == if i <= k then "on" else ""
    ensures Link(i) in Lit(k) <==> i <= k
  {
    if k > 0 {
      LinkIn(i, k - 1);
    }
  }

  lemma OneCondition(j: JoinDef, region: string, state: string, states: StateMap)
    requires j.when == map[region := state]
    ensures JoinReady(j, states) <==>
              && region in states && states[region] == state
              && StateOr(states, j.targetRegion, "") != j.targetState
  {
    assert region in j.when && j.when[region] == state;
    assert forall r :: r in j.when ==> r == region;
  }

  lemma LinkReady(i: nat, k: nat)
    ensures JoinReady(LinkJoin(i), Lit(k)) <==> i == k
  {
    LinkIn(i, k);
    LinkIn(i + 1, k);
    OneCondition(LinkJoin(i), Link(i), "on", Lit(k));
  }

  lemma {:induction false} ChainPass(n: nat, k: nat, from: nat)
    requires from <= n
    ensures CheckJoins(Chain(n)[from..], Lit(k)) == if from <= k < n then [JoinFired(Link(k + 1), "", "on")] else []
    decreases n - from
  {
    if from < n {
      ChainPass(n, k, from + 1);
      var joins := Chain(n)[from..];
      assert joins[1..] == Chain(n)[from + 1..] && joins[0] == LinkJoin(from);
      LinkReady(from, k);
      LinkIn(from + 1, k);
    }
  }

  lemma ChainStep(n: nat, k: nat)
    requires k <= n
    ensures var pass := CheckJoins(Chain(n), Lit(k));
            if k == n then pass == [] else pass != [] && ApplyFired(Lit(k), pass) == Lit(k + 1)
  {
    ChainPass(n, k, 0);
    assert Chain(n)[0..] == Chain(n);
    LitNext(k);
  }

  /** Pass `k` leads from stage `k` to the next, and none is ready at the last. */
  ghost predicate Stage(joins: seq<JoinDef>, stages: nat -> StateMap, n: nat, k: nat) {
    var pass := CheckJoins(joins, stages(k));
    if k == n then pass == [] else pass != [] && ApplyFired(stages(k), pass) == stages(k + 1)
  }

  lemma {:induction false} StagesCascade(joins: seq<JoinDef>, stages: nat -> StateMap, n: nat, k: nat, depth: nat)
    requires k <= n
    requires forall i: nat {:trigger Stage(joins, stages, n, i)} :: i <= n ==> Stage(joins, stages, n, i)
    ensures ApplyFired(stages(k), JoinCascade(joins, stages(k), depth))
         == stages(if k + depth <= n then k + depth else n)
    decreases depth
  {
    assert Stage(joins, stages, n, k);
    CascadeEnd(joins, stages(k), depth);
    if depth > 0 && k < n {
      StagesCascade(joins, stages, n, k + 1, depth - 1);
    }
  }

  lemma LitNext(k: nat)
    ensures ApplyFired(Lit(k), [JoinFired(Link(k + 1), "", "on")]) == Lit(k + 1)
  {
    assert [JoinFired(Link(k + 1), "", "on")][..0] == [];
  }

  lemma ChainCascade(n: nat, depth: nat)
    ensures ApplyFired(Lit(0), JoinCascade(Chain(n), Lit(0), depth)) == Lit(if depth <= n then depth else n)
  {
    forall k: nat | k <= n ensures Stage(Chain(n), Lit, n, k) {
      ChainStep(n, k);
    }
    StagesCascade(Chain(n), Lit, n, 0, depth);
  }

  lemma ChainEnds(n: nat, depth: nat)
    ensures CheckJoins(Chain(n), ApplyFired(Lit(0), JoinCascade(Chain(n), Lit(0), depth))) == [] <==> n <= depth
  {
    ChainCascade(n, depth);
    ChainStep(n, if depth <= n then depth else n);
  }

  /** The number of joins matters: a chain that agrees on its targets settles exactly when it is no
      longer than the number of passes, of which a write makes 10. */
  lemma ChainSettles(n: nat, depth: nat)
    ensures TargetsAgree(Chain(n))
    ensures Settles(Chain(n), ApplyFired(Lit(0), JoinCascade(Chain(n), Lit(0), depth))) <==> n <= depth
    ensures Settles(Chain(n), ApplyFired(Lit(0), JoinCascade(Chain(n), Lit(0), JOIN_DEPTH))) <==> n <= 10
  {
    ChainEnds(n, depth);
    ChainEnds(n, JOIN_DEPTH);
    SettlesIffNoneReady(Chain(n), ApplyFired(Lit(0), JoinCascade(Chain(n), Lit(0), depth)));
    SettlesIffNoneReady(Chain(n), ApplyFired(Lit(0), JoinCascade(Chain(n), Lit(0), JOIN_DEPTH)));
    ChainAgrees(n);
  }

  lemma ChainAgrees(n: nat)
    ensures TargetsAgree(Chain(n))
  {
  }

  /** Agreement matters: joins that undo each other never settle, and the bound is what ends them. */
  lemma CascadeMayNotSettle(depth: nat)
    ensures var joins := [JoinDef(map["r" := "a"], "r", "b"), JoinDef(map["r" := "b"], "r", "a")];
            |JoinCascade(joins, map["r" := "a"], depth)| == |JoinCascade(joins, map["r" := "b"], depth)| == depth
    decreases depth
  {
    var a, b: StateMap := map["r" := "a"], map["r" := "b"];
    var ab, ba := JoinDef(a, "r", "b"), JoinDef(b, "r", "a");
    if depth > 0 {
      CascadeMayNotSettle(depth - 1);
      assert JoinReady(ab, a) && !JoinReady(ab, b) by { assert "r" in ab.when && ab.when["r"] != b["r"]; }
      assert JoinReady(ba, b) && !JoinReady(ba, a) by { assert "r" in ba.when && ba.when["r"] != a["r"]; }
      OneOfTwo(ab, ba, a);
      OneOfTwo(ab, ba, b);
      assert a["r" := "b"] == b && b["r" := "a"] == a;
    }
  }

  lemma OneOfTwo(j: JoinDef, k: JoinDef, states: StateMap)
    ensures JoinReady(j, states) && !JoinReady(k, states) ==>
              CheckJoins([j, k], states) ==
                  [JoinFired(j.targetRegion, StateOr(states, j.targetRegion, ""), j.targetState)]
              && ApplyFired(states, CheckJoins([j, k], states)) == states[j.targetRegion := j.targetState]
    ensures JoinReady(k, states) && !JoinReady(j, states) ==>
              CheckJoins([j, k], states) ==
                  [JoinFired(k.targetRegion, StateOr(states, k.targetRegion, ""), k.targetState)]
              && ApplyFired(states, CheckJoins([j, k], states)) == states[k.targetRegion := k.targetState]
  {
    assert [j, k][1..] == [k] && [k][1..] == [];
    assert CheckJoins([], states) == [];
    forall f: JoinFired ensures ApplyFired(states, [f]) == states[f.targetRegion := f.targetState] {
      assert [f][..0] == [];
    }
  }

  // ---------------------------------------------------------------- region entries

  /** Search backwards for the last entry of the region. */
  method FindLastEntered(entered: seq<Entered>, region: string) returns (found: Option<Entered>)
    ensures found == LastEntered(entered, region)
    ensures found.None? ==> forall e :: e in entered ==> e.region != region
    ensures found.Some? ==> exists i :: 0 <= i < |entered| && entered[i] == found.value && entered[i].region == region
                                      && forall j :: i < j < |entered| ==> entered[j].region != region
  {
    var i := |entered|;
    assert entered[..i] == entered;
    while i > 0
      invariant 0 <= i <= |entered|
      invariant forall j :: i <= j < |entered| ==> entered[j].region != region
      invariant LastEntered(entered, region) == LastEntered(entered[..i], region)
    {
      i := i - 1;
      assert entered[..i + 1][..i] == entered[..i];
      if entered[i].region == region {
        return Some(entered[i]);
      }
    }
    return None;
  }

  /** The document that goes with `states` after a write, built one region at a time. */
  method AdvanceRegionEntries(
    previous: map<string, RegionEntry>, states: StateMap, entered: seq<Entered>, version: int, now: int)
    returns (stored: StoredEntries)
    ensures stored == AdvanceEntries(previous, states, entered, version, now)
  {
    var keys := SortedKeys(states.Keys);
    var regions: map<string, RegionEntry> := map[];
    for i := 0 to |keys|
      invariant regions.Keys == set j | 0 <= j < i :: keys[j]
      invariant forall r :: r in regions ==>
                  r in states && regions[r] == AdvancedEntry(previous, r, states[r], entered, version, now)
    {
      var region := keys[i];
      assert region in keys;
      var state := states[region];
      var last := FindLastEntered(entered, region);
      var entry: RegionEntry;
      match last {
        case Some(e) => entry := RegionEntry(e.state, version, now, ByTransition, Some(e.origin));
        case None =>
          if region in previous && previous[region].state == state {
            entry := previous[region];
          } else {
            entry := RegionEntry(state, version, now, ByTransition, None);
          }
      }
      regions := regions[region := entry];
    }
    assert regions.Keys == states.Keys by {
      forall r | r in states ensures r in regions {
        assert r in keys;
      }
    }
    stored := StoredEntries(version, regions);
  }

  /** Of several steps into a region the last one made its entry; without any, the region keeps its entry
      if it is in the same state. */
  lemma AdvancedEntryIs(
    previous: map<string, RegionEntry>, region: string, state: string, entered: seq<Entered>, version: int, now: int,
    i: nat)
    ensures var entry := AdvancedEntry(previous, region, state, entered, version, now);
            && (LastInto(entered, region, i) ==>
                  entry == RegionEntry(entered[i].state, version, now, ByTransition, Some(entered[i].origin)))
            && ((forall j :: 0 <= j < |entered| ==> entered[j].region != region) ==>
                  entry == if region in previous && previous[region].state == state then previous[region]
                           else RegionEntry(state, version, now, ByTransition, None))
  {
    LastEnteredIs(entered, region, i);
  }

  ghost predicate LastInto(entered: seq<Entered>, region: string, i: nat) {
    && i < |entered| && entered[i].region == region
    && forall j :: i < j < |entered| ==> entered[j].region != region
  }

  lemma {:induction false} LastEnteredIs(entered: seq<Entered>, region: string, i: nat)
    ensures (forall j :: 0 <= j < |entered| ==> entered[j].region != region) ==> LastEntered(entered, region).None?
    ensures LastInto(entered, region, i) ==> LastEntered(entered, region) == Some(entered[i])
    decreases |entered|
  {
    if entered != [] && entered[|entered| - 1].region != region {
      LastEnteredIs(entered[..|entered| - 1], region, i);
    }
  }

  // ---------------------------------------------------------------- completion rules

  /** The first rule, in order, that the child's states satisfy. */
  lemma {:induction false} FirstSatisfiedIsFirst(rules: seq<CompletionRule>, child: StateMap)
    ensures var target := FirstSatisfied(rules, child);
            && (target.None? <==> forall i :: 0 <= i < |rules| ==> !RuleHolds(rules[i], child))
            && (target.Some? <==>
              exists i :: 0 <= i < |rules| && RuleHolds(rules[i], child) && rules[i].target == target.value
                                            && forall j :: 0 <= j < i ==> !RuleHolds(rules[j], child))
    decreases |rules|
  {
    if rules != [] && !RuleHolds(rules[0], child) {
      FirstSatisfiedIsFirst(rules[1..], child);
      if FirstSatisfied(rules[1..], child).Some? {
        var i :| 0 <= i < |rules[1..]| && RuleHolds(rules[1..][i], child) &&
            rules[1..][i].target == FirstSatisfied(rules, child).value
                 && forall j :: 0 <= j < i ==> !RuleHolds(rules[1..][j], child);
        assert rules[i + 1] == rules[1..][i];
        assert forall j :: 0 < j < i + 1 ==> rules[j] == rules[1..][j - 1];
      } else {
        assert forall i :: 0 < i < |rules| ==> rules[i] == rules[1..][i - 1];
      }
    }
  }

  /** The states in which an entity of the machine begins: each region in its own initial state. */
  ghost predicate Begins(m: Machine, states: StateMap) {
    if m.regions == [] then states == map["_" := m.initial]
    else
      && (forall id :: id in states <==> exists i :: 0 <= i < |m.regions| && m.regions[i].id == id)
      && forall i :: 0 <= i < |m.regions| ==>
           m.regions[i].id in states && states[m.regions[i].id] == m.regions[i].initial
  }

  lemma {:induction false} InitialRegionsBegin(regions: seq<RegionDef>, i: nat)
    requires DistinctRegions(regions) && i < |regions|
    ensures regions[i].id in InitialRegionStates(regions)
    ensures InitialRegionStates(regions)[regions[i].id] == regions[i].initial
    decreases |regions|
  {
    if i < |regions| - 1 {
      InitialRegionsBegin(regions[..|regions| - 1], i);
    }
  }

  lemma InitialStatesBegin(m: Machine)
    requires DistinctRegions(m.regions)
    ensures Begins(m, m.InitialStates())
  {
    forall i | 0 <= i < |m.regions|
      ensures m.regions[i].id in m.InitialStates() && m.InitialStates()[m.regions[i].id] == m.regions[i].initial
    {
      InitialRegionsBegin(m.regions, i);
      assert m.regions[i] in m.regions;
    }
    if m.regions != [] {
      forall id | id in m.InitialStates() ensures exists i :: 0 <= i < |m.regions| && m.regions[i].id == id {
        var r :| r in m.regions && r.id == id;
        var i :| 0 <= i < |m.regions| && m.regions[i] == r;
      }
    }
  }

  /** The definition gives `state` of `region` that managed child. */
  ghost predicate DeclaresChild(m: Machine, region: string, state: string, sub: SubMachine) {
    && sub.managed
    && if m.regions == [] then region == "_" && state in m.subs && m.subs[state] == sub
       else exists r {:trigger r.subs} :: r in m.regions && r.id == region && state in r.subs && r.subs[state] == sub
  }

  lemma {:induction false} FindsRegion(regions: seq<RegionDef>, r: RegionDef)
    requires DistinctRegions(regions) && r in regions
    ensures FindRegion(regions, r.id) == Some(r)
    decreases |regions|
  {
    if regions[0] != r {
      var i :| 0 <= i < |regions| && regions[i] == r;
      assert regions[0].id != regions[i].id && regions[1..][i - 1] == r;
      FindsRegion(regions[1..], r);
    }
  }

  lemma {:induction false} FoundIsRegion(regions: seq<RegionDef>, id: string)
    ensures FindRegion(regions, id).Some? ==>
              FindRegion(regions, id).value in regions && FindRegion(regions, id).value.id == id
    decreases |regions|
  {
    if regions != [] {
      FoundIsRegion(regions[1..], id);
    }
  }

  lemma ManagedSubIsDeclared(m: Machine, region: string, state: string, sub: SubMachine)
    requires DistinctRegions(m.regions)
    ensures m.ManagedSub(region, state) == Some(sub) <==> DeclaresChild(m, region, state, sub)
  {
    FoundIsRegion(m.regions, region);
    if DeclaresChild(m, region, state, sub) && m.regions != [] {
      var r :| r in m.regions && r.id == region && state in r.subs && r.subs[state] == sub;
      FindsRegion(m.regions, r);
    }
  }

  /** Where a child that ended in `states` sends its parent: if it is flat and its state is in `onFinal`,
      there; otherwise to the target of the first rule all of whose conditions it meets. */
  ghost predicate SendsTo(sub: SubMachine, states: StateMap, to: string) {
    if states.Keys == {"_"} && states["_"] in sub.onFinal then
      to == sub.onFinal[states["_"]]
    else
      exists i :: 0 <= i < |sub.completeWhen| && sub.completeWhen[i].target == to
                  && Meets(states, sub.completeWhen[i].when)
                  && forall j :: 0 <= j < i ==> !Meets(states, sub.completeWhen[j].when)
  }

  lemma CompletionSends(sub: SubMachine, states: StateMap, to: string)
    ensures CompletionTarget(sub, states) == Some(to) <==> SendsTo(sub, states, to)
  {
    EncodeRoundTrip(states);
    assert DEFAULT_REGION == "_";
    FirstSatisfiedIsFirst(sub.completeWhen, states);
    if SendsTo(sub, states, to) && !(states.Keys == {"_"} && states["_"] in sub.onFinal) {
      var i :| 0 <= i < |sub.completeWhen| && sub.completeWhen[i].target == to
               && Meets(states, sub.completeWhen[i].when)
               && forall j :: 0 <= j < i ==> !Meets(states, sub.completeWhen[j].when);
      assert RuleHolds(sub.completeWhen[i], states);
    }
  }

  /** The rule's conditions are on all regions of the machine and no others, each on a state that the
      definition gives to that region. */
  ghost predicate Fits(when: StateMap, m: Machine) {
    if m.regions == [] then when.Keys == {"_"} && when["_"] in m.states
    else
      && (forall id :: id in when <==> exists i :: 0 <= i < |m.regions| && m.regions[i].id == id)
      && forall i :: 0 <= i < |m.regions| ==> m.regions[i].id in when && when[m.regions[i].id] in m.regions[i].states
  }

  lemma RuleFitsMeans(rule: CompletionRule, m: Machine)
    requires DistinctRegions(m.regions)
    ensures RuleFits(rule, m) <==> Fits(rule.when, m)
  {
    if m.regions != [] {
      forall i | 0 <= i < |m.regions| ensures RegionStates(m, m.regions[i].id) == m.regions[i].states {
        FindsRegion(m.regions, m.regions[i]);
      }
      forall id ensures id in m.RegionIds() <==> exists i :: 0 <= i < |m.regions| && m.regions[i].id == id {
        if id in m.RegionIds() {
          var r :| r in m.regions && r.id == id;
          var i :| 0 <= i < |m.regions| && m.regions[i] == r;
        }
      }
    }
  }

  /** So a rule that fits is met by one state map only, among those of the machine's regions. */
  lemma FittingRuleIsOneState(rule: CompletionRule, m: Machine, states: StateMap)
    requires RuleFits(rule, m) && states.Keys == m.RegionIds()
    ensures Meets(states, rule.when) <==> states == rule.when
  {
  }

  /** Checks `RulesFit` rule by rule, up to the first that does not fit. */
  method CheckRulesAgainst(sub: SubMachine, child: Machine) returns (ok: bool)
    ensures ok <==> RulesFit(sub, child)
  {
    for i := 0 to |sub.completeWhen|
      invariant forall j :: 0 <= j < i ==> RuleFits(sub.completeWhen[j], child)
    {
      assert sub.completeWhen[i] in sub.completeWhen;
      var fits := CheckRule(sub.completeWhen[i], child);
      if !fits {
        return false;
      }
    }
    return true;
  }

  method CheckRule(rule: CompletionRule, child: Machine) returns (ok: bool)
    ensures ok <==> RuleFits(rule, child)
  {
    if rule.when.Keys != child.RegionIds() {
      return false;
    }
    var named := SortedKeys(rule.when.Keys);
    for k := 0 to |named|
      invariant forall l :: 0 <= l < k ==> rule.when[named[l]] in RegionStates(child, named[l])
    {
      assert named[k] in named;
      if rule.when[named[k]] !in RegionStates(child, named[k]) {
        return false;
      }
    }
    assert forall r :: r in rule.when ==> r in named;
    return true;
  }

  // ---------------------------------------------------------------- child ids

  /** Child ids are plain concatenation: different entities in different states can name one child. */
  lemma ChildIdsCollide()
    ensures ChildEntityId("a::sub::b", "c") == ChildEntityId("a", "b::sub::c")
    ensures "a::sub::b" != "a" && "c" != "b::sub::c"
  {
    assert "a::sub::b" == "a" + CHILD_MARK + "b";
    assert "b::sub::c" == "b" + CHILD_MARK + "c";
    assert |"a::sub::b"| == 9;
  }

  /** For one entity they are distinct. */
  lemma ChildIdsOfOneParent(parent: string, s: string, t: string)
    requires ChildEntityId(parent, s) == ChildEntityId(parent, t)
    ensures s == t
  {
    var n := |parent| + |CHILD_MARK|;
    assert ChildEntityId(parent, s)[n..] == s && ChildEntityId(parent, t)[n..] == t;
  }
}
