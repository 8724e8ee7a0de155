/** Targeted delivery reaches exactly the active instances, each by its own path. */
module Delivery {
  import opened Models
  import opened Engine
  import opened Lifecycle
  import opened Ledger
  import opened Tree
  import opened Requests

  /** The invariant of every committed store. */
  ghost predicate Consistent(reg: Registry, db: Db) {
    LedgerOk(reg, db.entities, db.history, None) && TreeOk(reg, db.entities, None)
  }

  /** `target` names the path's states, and its entry instances where it names them at all. */
  ghost predicate NamesPath(target: seq<TargetStep>, path: seq<Step>) {
    |target| == |path| &&
    forall i {:trigger target[i]} {:trigger path[i]} :: 0 <= i < |path| ==> NamesStep(target[i], path[i])
  }

  predicate NamesStep(t: TargetStep, s: Step) {
    t.region == s.region && t.state == s.state && (t.entry.Some? ==> t.entry.value == s.entry)
  }

  /** The target path is accepted at `start` and ends at `d`. */
  ghost predicate Accepted(reg: Registry, db: Db, start: Key, target: seq<TargetStep>, d: Key)
    requires start.machine in reg
  {
    && start in db.entities && db.entities[start].Live()
    && ResolveHops(reg, start, target).Ok?
    && HopsCurrent(db.entities, ResolveHops(reg, start, target).value)
    && HopsEnd(start, ResolveHops(reg, start, target).value) == d
  }

  /** `d` is the live entity at `path` below `start`. */
  ghost predicate LiveAt(db: Db, start: Key, path: seq<Step>, d: Key) {
    && start in db.entities && db.entities[start].Live()
    && d in db.entities && db.entities[d].Live()
    && db.entities[d].Path() == db.entities[start].Path() + path
    && (path == [] ==> d == start)
    && (path != [] ==> ParentKey(path[0]) == start)
  }

  /** A current hop leads to the child that the parent's entry instance is linked to. */
  lemma HopLinks(reg: Registry, db: Db, key: Key, hop: Hop)
    requires Consistent(reg, db) && key.machine in reg && HopCurrent(db.entities, hop)
    requires hop.parent == key
    requires reg[key.machine].ManagedSub(hop.region, hop.state).Some?
    requires hop.child == ChildKey(reg[key.machine].ManagedSub(hop.region, hop.state).value, key.id, hop.state)
    ensures InManaged(reg, key, db.entities[key], hop.region)
    ensures Linked(db.entities, hop.child, StepOf(key, db.entities[key], hop.region), db.entities[key].Path())
  {
    assert DownAt(reg, db.entities, None, key, hop.region);
  }

  /** A hop is current exactly if its parent is live and in the named state and, if an entry is named, in
      that entry: what the child is then follows, so its own checks never fail. */
  lemma HopCurrentExact(reg: Registry, db: Db, hop: Hop)
    requires Consistent(reg, db) && hop.parent.machine in reg
    requires reg[hop.parent.machine].ManagedSub(hop.region, hop.state).Some?
    requires hop.child == ChildKey(reg[hop.parent.machine].ManagedSub(hop.region, hop.state).value, hop.parent.id,
                                   hop.state)
    ensures HopCurrent(db.entities, hop) <==>
              && hop.parent in db.entities && db.entities[hop.parent].Live()
              && hop.region in db.entities[hop.parent].states
              && db.entities[hop.parent].states[hop.region] == hop.state
              && (hop.entry.Some? ==> hop.entry.value == EntryOf(db.entities[hop.parent], hop.region).entry)
  {
    if hop.parent in db.entities && hop.region in db.entities[hop.parent].states {
      assert EntityOkAt(reg, db.entities, db.history, hop.parent);
      assert EntryCurrent(db.entities[hop.parent], hop.region);
      assert DownAt(reg, db.entities, None, hop.parent, hop.region);
    }
  }

  /** After its first hop, an accepted path is accepted at that hop's child. */
  lemma AcceptedTail(reg: Registry, db: Db, start: Key, target: seq<TargetStep>, d: Key)
    requires Consistent(reg, db) && start.machine in reg && Accepted(reg, db, start, target, d)
    requires target != []
    ensures var hop := ResolveHops(reg, start, target).value[0];
            && hop.parent == start && hop.child.machine in reg
            && HopCurrent(db.entities, hop)
            && ResolveHops(reg, start, target).value == [hop] + ResolveHops(reg, hop.child, target[1..]).value
            && Accepted(reg, db, hop.child, target[1..], d)
            && NamesStep(target[0], StepOf(start, db.entities[start], hop.region))
            && Linked(db.entities, hop.child, StepOf(start, db.entities[start], hop.region), db.entities[start].Path())
  {
    ResolveTail(reg, start, target);
    var hops := ResolveHops(reg, start, target).value;
    var rest := ResolveHops(reg, hops[0].child, target[1..]).value;
    assert HopCurrent(db.entities, hops[0]);
    HopLinks(reg, db, start, hops[0]);
    forall i | 0 <= i < |rest| ensures HopCurrent(db.entities, rest[i]) {
      assert rest[i] == hops[i + 1];
    }
  }

  lemma ResolveTail(reg: Registry, start: Key, target: seq<TargetStep>)
    requires start.machine in reg && target != [] && ResolveHops(reg, start, target).Ok?
    ensures var hops := ResolveHops(reg, start, target).value;
            && hops != []
            && var sub := reg[start.machine].ManagedSub(target[0].region, target[0].state);
               && sub.Some?
               && hops[0] == Hop(start, target[0].region, target[0].state, target[0].entry,
                                 ChildKey(sub.value, start.id, target[0].state))
               && hops[0].child.machine in reg
               && ResolveHops(reg, hops[0].child, target[1..]).Ok?
               && hops == [hops[0]] + ResolveHops(reg, hops[0].child, target[1..]).value
               && HopsEnd(start, hops) == HopsEnd(hops[0].child, ResolveHops(reg, hops[0].child, target[1..]).value)
  {
  }

  lemma LiveAtCons(db: Db, start: Key, s: Step, child: Key, tail: seq<Step>, d: Key)
    requires start in db.entities && db.entities[start].Live()
    requires Linked(db.entities, child, s, db.entities[start].Path()) && ParentKey(s) == start
    requires LiveAt(db, child, tail, d)
    ensures LiveAt(db, start, [s] + tail, d)
  {
    assert db.entities[start].Path() + [s] + tail == db.entities[start].Path() + ([s] + tail);
  }

  lemma {:induction false} AcceptedIsLive(
    reg: Registry, db: Db, start: Key, target: seq<TargetStep>, d: Key) returns (path: seq<Step>)
    requires Consistent(reg, db) && start.machine in reg && Accepted(reg, db, start, target, d)
    ensures LiveAt(db, start, path, d) && NamesPath(target, path)
    decreases |target|
  {
    if target == [] {
      path := [];
    } else {
      AcceptedTail(reg, db, start, target, d);
      var hop := ResolveHops(reg, start, target).value[0];
      var tail := AcceptedIsLive(reg, db, hop.child, target[1..], d);
      var s := StepOf(start, db.entities[start], hop.region);
      path := [s] + tail;
      LiveAtCons(db, start, s, hop.child, tail, d);
      forall i | 0 <= i < |path| ensures NamesStep(target[i], path[i]) {
        if i > 0 {
          assert NamesStep(target[1..][i - 1], tail[i - 1]);
        }
      }
    }
  }

  lemma {:induction false} ResolveAppend(reg: Registry, start: Key, target: seq<TargetStep>, last: TargetStep)
    requires start.machine in reg && ResolveHops(reg, start, target).Ok?
    requires var end := HopsEnd(start, ResolveHops(reg, start, target).value);
             end.machine in reg
             && reg[end.machine].ManagedSub(last.region, last.state).Some?
             && reg[end.machine].ManagedSub(last.region, last.state).value.machineId in reg
    ensures var hops := ResolveHops(reg, start, target).value;
            var end := HopsEnd(start, hops);
            var child := ChildKey(reg[end.machine].ManagedSub(last.region, last.state).value, end.id, last.state);
            ResolveHops(reg, start, target + [last])
              == Ok(hops + [Hop(end, last.region, last.state, last.entry, child)])
    decreases |target|
  {
    var hops := ResolveHops(reg, start, target).value;
    if target == [] {
      assert [] + [last] == [last] && [last][1..] == [];
      var sub := reg[start.machine].ManagedSub(last.region, last.state).value;
      var child := ChildKey(sub, start.id, last.state);
      assert ResolveHops(reg, child, [last][1..]) == Ok([]);
      var hop := Hop(start, last.region, last.state, last.entry, child);
      assert [hop] + [] == [] + [hop];
    } else {
      assert (target + [last])[1..] == target[1..] + [last] && (target + [last])[0] == target[0];
      ResolveTail(reg, start, target);
      var rest := ResolveHops(reg, hops[0].child, target[1..]).value;
      ResolveAppend(reg, hops[0].child, target[1..], last);
      var longer := ResolveHops(reg, hops[0].child, target[1..] + [last]).value;
      assert [hops[0]] + longer == hops + longer[|rest|..];
    }
  }

  lemma SplitLast(above: seq<Step>, link: Step, base: seq<Step>, path: seq<Step>)
    requires above + [link] == base + path && path != []
    ensures above == base + path[..|path| - 1] && link == path[|path| - 1]
  {
    assert (above + [link])[..|above|] == above && (above + [link])[|above|] == link;
    assert (base + path)[..|base| + |path| - 1] == base + path[..|path| - 1];
  }

  /** Conversely, any live entity below `start` is reached by naming its path. */
  lemma {:induction false} LiveIsAccepted(
    reg: Registry, db: Db, start: Key, target: seq<TargetStep>, path: seq<Step>, d: Key)
    requires Consistent(reg, db) && start.machine in reg
    requires LiveAt(db, start, path, d) && NamesPath(target, path)
    ensures Accepted(reg, db, start, target, d)
    decreases |path|
  {
    if path != [] {
      var n := |path| - 1;
      var i := db.entities[d].instance.value;
      assert Up(reg, db.entities, d);
      assert EntityOkAt(reg, db.entities, db.history, d);
      SplitLast(i.above, i.link, db.entities[start].Path(), path);
      var parent := ParentKey(i.link);
      if n == 0 {
        assert i.above == db.entities[start].Path() && path[..0] == [];
      }
      LiveIsAccepted(reg, db, start, target[..n], path[..n], parent);
      LastHop(reg, db, start, target, path, d);
    }
  }

  /** From a parent that is accepted to its child. */
  lemma LastHop(reg: Registry, db: Db, start: Key, target: seq<TargetStep>, path: seq<Step>, d: Key)
    requires Consistent(reg, db) && start.machine in reg && path != [] && NamesPath(target, path)
    requires d in db.entities && db.entities[d].IsActiveChild() &&
             db.entities[d].instance.value.link == path[|path| - 1]
    requires Accepted(reg, db, start, target[..|path| - 1], ParentKey(path[|path| - 1]))
    ensures Accepted(reg, db, start, target, d)
  {
    var n := |path| - 1;
    var hops := ResolveHops(reg, start, target[..n]).value;
    assert Up(reg, db.entities, d);
    assert EntityOkAt(reg, db.entities, db.history, d);
    assert NamesStep(target[n], path[n]);
    assert target == target[..n] + [target[n]];
    ResolveAppend(reg, start, target[..n], target[n]);
  }

  /** A target path is accepted exactly when it names the path of the live entity it ends at. */
  lemma TargetedDelivery(reg: Registry, db: Db, start: Key, target: seq<TargetStep>, d: Key)
    requires Consistent(reg, db) && start.machine in reg
    ensures Accepted(reg, db, start, target, d) <==>
              exists path {:trigger LiveAt(db, start, path, d)} :: LiveAt(db, start, path, d) && NamesPath(target, path)
  {
    if Accepted(reg, db, start, target, d) {
      var path := AcceptedIsLive(reg, db, start, target, d);
    }
    if exists path {:trigger LiveAt(db, start, path, d)} :: LiveAt(db, start, path, d) && NamesPath(target, path) {
      var path :| LiveAt(db, start, path, d) && NamesPath(target, path);
      LiveIsAccepted(reg, db, start, target, path, d);
    }
  }

  lemma {:induction false} LiveBelowRoot(reg: Registry, db: Db, d: Key)
    requires Consistent(reg, db) && d in db.entities && db.entities[d].IsActiveChild()
    ensures LiveAt(db, ParentKey(db.entities[d].Path()[0]), db.entities[d].Path(), d)
    decreases |db.entities[d].Path()|
  {
    var i := db.entities[d].instance.value;
    var parent := ParentKey(i.link);
    assert Up(reg, db.entities, d);
    if i.above == [] {
      assert db.entities[parent].Path() == [];
    } else {
      LiveBelowRoot(reg, db, parent);
      assert db.entities[d].Path()[0] == i.above[0];
    }
  }

  /** Every active instance is at its stored path below the root of its tree, and any target that names
      that path is accepted from there and ends at it. */
  lemma ReachedFromRoot(reg: Registry, db: Db, d: Key)
    requires Consistent(reg, db) && d in db.entities && db.entities[d].IsActiveChild()
    ensures var root, path := ParentKey(db.entities[d].Path()[0]), db.entities[d].Path();
            && LiveAt(db, root, path, d) && root.machine in reg
            && forall target {:trigger NamesPath(target, path)} :: NamesPath(target, path) ==>
              Accepted(reg, db, root, target, d)
  {
    var root, path := ParentKey(db.entities[d].Path()[0]), db.entities[d].Path();
    LiveBelowRoot(reg, db, d);
    assert EntityOkAt(reg, db.entities, db.history, root);
    forall target | NamesPath(target, path) ensures Accepted(reg, db, root, target, d) {
      LiveIsAccepted(reg, db, root, target, path, d);
    }
  }
}
