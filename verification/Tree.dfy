/** The instance tree: a live entity is in a managed compound state exactly when the child at its
    computed key is active and names that entry instance. */
module Tree {
  import opened Models
  import opened Engine
  import opened Lifecycle
  import opened Ledger

  /** The entry instance of a region, as a path step. */
  function StepOf(key: Key, e: Entity, region: string): Step
    requires region in e.states
  {
    Step(key.machine, key.id, region, e.states[region], EntryOf(e, region).entry)
  }

  /** Some managed child belongs to what `region` is in. */
  ghost predicate InManaged(reg: Registry, key: Key, e: Entity, region: string) {
    region in e.states && SubOf(reg, StepOf(key, e, region)).Some?
  }

  function ChildOf(reg: Registry, key: Key, e: Entity, region: string): Key
    requires InManaged(reg, key, e, region)
  {
    ChildKey(SubOf(reg, StepOf(key, e, region)).value, key.id, e.states[region])
  }

  ghost predicate Linked(entities: map<Key, Entity>, child: Key, link: Step, above: seq<Step>) {
    && child in entities
    && entities[child].instance.Some?
    && entities[child].instance.value.link == link
    && entities[child].instance.value.above == above
  }

  /** A live entity in a managed state has its linked child there, active if `active`. */
  ghost predicate Down(reg: Registry, entities: map<Key, Entity>, key: Key, region: string, active: bool) {
    key in entities && (entities[key].Live() && InManaged(reg, key, entities[key], region) ==>
      var child := ChildOf(reg, key, entities[key], region);
      && Linked(entities, child, StepOf(key, entities[key], region), entities[key].Path())
      && (active ==> entities[child].IsActiveChild()))
  }

  /** An active child's parent is live and still in the entry instance the child names. */
  ghost predicate Up(reg: Registry, entities: map<Key, Entity>, child: Key) {
    child in entities && (entities[child].IsActiveChild() ==>
      var i := entities[child].instance.value;
      var parent := ParentKey(i.link);
      && parent in entities
      && entities[parent].Live()
      && i.link.region in entities[parent].states
      && StepOf(parent, entities[parent], i.link.region) == i.link
      && i.above == entities[parent].Path())
  }

  datatype Place = Place(key: Key, region: string)

  ghost predicate DownAt(reg: Registry, entities: map<Key, Entity>, hole: Option<Place>, key: Key, region: string) {
    Down(reg, entities, key, region, hole != Some(Place(key, region)))
  }

  /** The tree invariant. At the `hole`, the linked child may have ended already. */
  ghost predicate TreeOk(reg: Registry, entities: map<Key, Entity>, hole: Option<Place>) {
    && (forall k, r {:trigger DownAt(reg, entities, hole, k, r)} ::
          k in entities && r in entities[k].states ==> DownAt(reg, entities, hole, k, r))
    && (forall c {:trigger Up(reg, entities, c)} :: c in entities ==> Up(reg, entities, c))
  }

  // ---------------------------------------------------------------- paths

  lemma PrefixOfExtension(base: seq<Step>, s: Step, p: seq<Step>)
    requires base + [s] <= p
    ensures base <= p && |base| < |p| && p[|base|] == s
  {
    assert p[..|base|] == (p[..|base| + 1])[..|base|];
    assert (base + [s])[|base|] == s;
  }

  lemma PrefixTransitive(a: seq<Step>, b: seq<Step>, c: seq<Step>)
    requires a <= b && b <= c
    ensures a <= c
  {
    assert c[..|a|] == c[..|b|][..|a|];
  }

  /** Two different extensions of one path have no common descendant. */
  lemma ExtensionsApart(base: seq<Step>, s: Step, t: Step, p: seq<Step>)
    requires base + [s] <= p && base + [t] <= p
    ensures s == t
  {
    PrefixOfExtension(base, s, p);
    PrefixOfExtension(base, t, p);
  }

  // ---------------------------------------------------------------- subtrees

  /** Active instances at or below a path. */
  ghost predicate InSubtree(entities: map<Key, Entity>, base: seq<Step>, d: Key) {
    d in entities && entities[d].IsActiveChild() && base <= entities[d].Path()
  }

  ghost predicate SubtreeNode(reg: Registry, entities: map<Key, Entity>, base: seq<Step>, d: Key)
    requires d in entities
  {
    && (forall r {:trigger Down(reg, entities, d, r, true)} :: r in entities[d].states ==>
      Down(reg, entities, d, r, true))
    && (|base| < |entities[d].Path()| ==> Up(reg, entities, d))
  }

  /** The tree invariant, restricted to the instances at or below a path. */
  ghost predicate SubtreeOk(reg: Registry, entities: map<Key, Entity>, base: seq<Step>) {
    forall d {:trigger InSubtree(entities, base, d)} :: InSubtree(entities, base, d) ==>
      SubtreeNode(reg, entities, base, d)
  }

  lemma SamePath(reg: Registry, a: Key, ea: Entity, b: Key, eb: Entity)
    requires InstanceOk(reg, a, ea) && InstanceOk(reg, b, eb)
    requires ea.instance.Some? && eb.instance.Some? && ea.Path() == eb.Path()
    ensures a == b
  {
    var p := ea.Path();
    assert p[|p| - 1] == ea.instance.value.link && p[|p| - 1] == eb.instance.value.link;
  }

  /** The parent of a proper descendant is at or below the path too. */
  lemma ParentInSubtree(reg: Registry, entities: map<Key, Entity>, base: seq<Step>, d: Key)
    requires SubtreeOk(reg, entities, base) && base != []
    requires InSubtree(entities, base, d) && |base| < |entities[d].Path()|
    ensures var i := entities[d].instance.value;
            && InSubtree(entities, base, ParentKey(i.link))
            && entities[ParentKey(i.link)].Path() == i.above
            && i.link.region in entities[ParentKey(i.link)].states
            && StepOf(ParentKey(i.link), entities[ParentKey(i.link)], i.link.region) == i.link
  {
    var i := entities[d].instance.value;
    assert SubtreeNode(reg, entities, base, d);
  }

  /** Every proper descendant is below one of the managed regions of the subtree's top. */
  lemma {:induction false} DescendantRegion(
    reg: Registry, entities: map<Key, Entity>, top: Key, d: Key) returns (region: string)
    requires forall k :: k in entities ==> InstanceOk(reg, k, entities[k])
    requires top in entities && entities[top].IsActiveChild()
    requires SubtreeOk(reg, entities, entities[top].Path())
    requires InSubtree(entities, entities[top].Path(), d) && d != top
    ensures InManaged(reg, top, entities[top], region)
    ensures InSubtree(entities, entities[top].Path() + [StepOf(top, entities[top], region)], d)
    decreases |entities[d].Path()|
  {
    var base := entities[top].Path();
    var i := entities[d].instance.value;
    if |entities[d].Path()| == |base| {
      SamePath(reg, d, entities[d], top, entities[top]);
    }
    ParentInSubtree(reg, entities, base, d);
    var parent := ParentKey(i.link);
    if parent == top {
      region := i.link.region;
    } else {
      region := DescendantRegion(reg, entities, top, parent);
    }
  }
}
