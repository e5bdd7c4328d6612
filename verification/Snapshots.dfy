/** Snapshots as the program holds them: nested maps that a delta changes in place. */
module Snapshots {
  import opened Common
  import opened Delta

  datatype Value = Leaf(t: Tree) | Ref(node: Node)

  class Node {
    var fields: map<string, Value>

    constructor (fields: map<string, Value>)
      ensures this.fields == fields
    {
      this.fields := fields;
    }
  }

  /** Which map stands where in a snapshot; `all` holds every map of it. */
  datatype Shape = Shape(node: Node, kids: map<string, Shape>, all: set<Node>)

  /** No map stands in two places. */
  ghost predicate Apart(s: Shape) {
    && s.node in s.all
    && (forall k | k in s.kids :: s.kids[k].all <= s.all - {s.node} && Apart(s.kids[k]))
    && (forall j, k | j in s.kids && k in s.kids && j != k :: s.kids[j].all !! s.kids[k].all)
  }

  /** The field `k` of a map holds the value `t`. */
  ghost predicate Field(x: Value, kids: map<string, Shape>, k: string, t: Tree)
    requires k in kids ==> Apart(kids[k])
    reads if k in kids then kids[k].all else {}
    decreases t, 2
  {
    if k in kids then x == Ref(kids[k].node) && t.Obj? && Holds(kids[k], t) else !t.Obj? && x == Leaf(t)
  }

  /** The maps now hold the snapshot `t`. */
  ghost predicate Holds(s: Shape, t: Tree)
    requires Apart(s)
    reads s.all
    decreases t, 1
  {
    && t.Obj? && s.node.fields.Keys == t.fields.Keys && s.kids.Keys <= t.fields.Keys
    && forall k | k in t.fields :: Field(s.node.fields[k], s.kids, k, t.fields[k])
  }

  /** A shape with another map, or none, at `k`. */
  ghost function WithKid(s: Shape, k: string, kid: Option<Shape>): Shape {
    Shape(s.node, if kid.Some? then s.kids[k := kid.value] else s.kids - {k},
          if kid.Some? then s.all + kid.value.all else s.all)
  }

  /** The map may take the place `k`: it is in none of the others. */
  ghost predicate Admits(s: Shape, k: string, kid: Shape) {
    && Apart(kid) && s.node !in kid.all
    && forall j | j in s.kids && j != k :: s.kids[j].all !! kid.all
  }

  lemma WithKidIsApart(s: Shape, k: string, kid: Option<Shape>)
    requires Apart(s) && (kid.Some? ==> Admits(s, k, kid.value))
    ensures Apart(WithKid(s, k, kid))
  {
    var s' := WithKid(s, k, kid);
    forall j | j in s'.kids ensures s'.kids[j].all <= s'.all - {s.node} && Apart(s'.kids[j]) {
      if j != k { assert j in s.kids; }
    }
    forall i, j | i in s'.kids && j in s'.kids && i != j ensures s'.kids[i].all !! s'.kids[j].all {
    }
  }

  ghost predicate Takes(x: Value, kid: Option<Shape>, v: Tree)
    requires kid.Some? ==> Apart(kid.value)
    reads if kid.Some? then kid.value.all else {}
  {
    if kid.Some? then x == Ref(kid.value.node) && v.Obj? && Holds(kid.value, v) else !v.Obj? && x == Leaf(v)
  }

  /** Assigns one field of a map. */
  method Put(n: Node, k: string, x: Value, ghost s: Shape, ghost t: Tree, ghost kid: Option<Shape>, ghost v: Tree)
    requires Apart(s) && Holds(s, t) && n == s.node
    requires kid.Some? ==> Admits(s, k, kid.value)
    requires Takes(x, kid, v)
    modifies n
    ensures Apart(WithKid(s, k, kid)) && Holds(WithKid(s, k, kid), Obj(t.fields[k := v]))
  {
    WithKidIsApart(s, k, kid);
    ghost var kids := WithKid(s, k, kid).kids;
    ghost var fields := t.fields[k := v];
    n.fields := n.fields[k := x];
    forall j | j in fields ensures Field(n.fields[j], kids, j, fields[j]) {
      if j != k { assert old(Field(n.fields[j], s.kids, j, t.fields[j])); }
    }
  }

  /** Decoding: a snapshot in maps of its own. */
  method Build(t: Tree) returns (n: Node, ghost s: Shape)
    requires t.Obj?
    ensures s.node == n && fresh(s.all) && Apart(s) && Holds(s, t)
    decreases t
  {
    n := new Node(map[]);
    s := Shape(n, map[], {n});
    ghost var part: Tree := Obj(map[]);
    var todo := t.fields.Keys;
    while todo != {}
      invariant todo <= t.fields.Keys && part == Obj(t.fields - todo)
      invariant s.node == n && fresh(s.all) && Apart(s) && Holds(s, part)
      decreases |todo|
    {
      var k :| k in todo;
      var x: Value := Leaf(t.fields[k]);
      ghost var kid: Option<Shape> := None;
      if t.fields[k].Obj? {
        var child;
        ghost var shape;
        child, shape := Build(t.fields[k]);
        x, kid := Ref(child), Some(shape);
      }
      Put(n, k, x, s, part, kid, t.fields[k]);
      s := WithKid(s, k, kid);
      PartGrows(t, todo, k);
      part, todo := Obj(part.fields[k := t.fields[k]]), todo - {k};
    }
    assert t.fields - {} == t.fields;
  }

  lemma PartGrows(t: Tree, todo: set<string>, k: string)
    requires t.Obj? && k in todo && todo <= t.fields.Keys
    ensures (t.fields - todo)[k := t.fields[k]] == t.fields - (todo - {k})
  {
  }

  /** What a change inside the map at `k` cannot touch: the other fields. */
  ghost predicate Others(s: Shape, t: Tree, k: string)
    requires Apart(s) && k in s.kids
    reads s.all - s.kids[k].all
  {
    && t.Obj? && s.node.fields.Keys == t.fields.Keys && s.kids.Keys <= t.fields.Keys
    && s.node.fields[k] == Ref(s.kids[k].node)
    && forall j | j in t.fields && j != k :: Field(s.node.fields[j], s.kids, j, t.fields[j])
  }

  lemma HoldsOthers(s: Shape, t: Tree, k: string)
    requires Apart(s) && Holds(s, t) && k in s.kids
    ensures Others(s, t, k) && Holds(s.kids[k], t.fields[k])
  {
    assert Field(s.node.fields[k], s.kids, k, t.fields[k]);
  }

  lemma Replaced(s: Shape, t: Tree, k: string, kid: Shape, v: Tree)
    requires Apart(s) && k in s.kids && Others(s, t, k) && kid.node == s.kids[k].node
    requires Admits(s, k, kid) && Holds(kid, v)
    ensures Apart(WithKid(s, k, Some(kid))) && Holds(WithKid(s, k, Some(kid)), Obj(t.fields[k := v]))
  {
    WithKidIsApart(s, k, Some(kid));
    var kids, fields := WithKid(s, k, Some(kid)).kids, t.fields[k := v];
    forall j | j in fields ensures Field(s.node.fields[j], kids, j, fields[j]) {
      if j != k { assert Field(s.node.fields[j], s.kids, j, t.fields[j]); }
    }
  }

  /** Encoding: the snapshot as a value. */
  method Encode(n: Node, ghost s: Shape, ghost t: Tree) returns (r: Tree)
    requires Apart(s) && Holds(s, t) && n == s.node
    ensures r == t
    decreases t
  {
    var fields: map<string, Tree> := map[];
    var todo := n.fields.Keys;
    while todo != {}
      invariant todo <= t.fields.Keys && fields == t.fields - todo
      decreases |todo|
    {
      var k :| k in todo;
      assert Field(n.fields[k], s.kids, k, t.fields[k]);
      var v: Tree;
      match n.fields[k] {
        case Leaf(x) => v := x;
        case Ref(child) => v := Encode(child, s.kids[k], t.fields[k]);
      }
      PartGrows(t, todo, k);
      fields, todo := fields[k := v], todo - {k};
    }
    assert t.fields - {} == t.fields;
    r := Obj(fields);
  }

  /** Deletes one field of a map. */
  method Delete(n: Node, k: string, ghost s: Shape, ghost t: Tree)
    requires Apart(s) && Holds(s, t) && n == s.node
    modifies n
    ensures Apart(WithKid(s, k, None)) && Holds(WithKid(s, k, None), Obj(t.fields - {k}))
  {
    WithKidIsApart(s, k, None);
    ghost var kids, fields := WithKid(s, k, None).kids, t.fields - {k};
    n.fields := n.fields - {k};
    forall j | j in fields ensures Field(n.fields[j], kids, j, fields[j]) {
      assert old(Field(n.fields[j], s.kids, j, t.fields[j]));
    }
  }

  /** Follows a path down to its last key and deletes the field there. */
  method Remove(n: Node, path: Path, ghost s: Shape, ghost t: Tree) returns (ok: bool, ghost s': Shape)
    requires Apart(s) && Holds(s, t) && n == s.node && path != []
    modifies s.all
    ensures ok <==> RemoveAt(t, path).Ok?
    ensures ok ==> s'.node == n && s'.all <= s.all && Apart(s') && Holds(s', RemoveAt(t, path).value)
    decreases |path|
  {
    var k := path[0];
    ok, s' := k in n.fields, s;
    if !ok { return; }
    assert Field(n.fields[k], s.kids, k, t.fields[k]);
    if |path| == 1 {
      Delete(n, k, s, t);
      s' := WithKid(s, k, None);
    } else if n.fields[k].Leaf? {
      ok := false;
    } else {
      HoldsOthers(s, t, k);
      ghost var kid;
      ok, kid := Remove(n.fields[k].node, path[1..], s.kids[k], t.fields[k]);
      if ok {
        Replaced(s, t, k, kid, RemoveAt(t.fields[k], path[1..]).value);
        s' := WithKid(s, k, Some(kid));
      }
    }
  }

  // ----- Merging -----

  ghost function Own(s: Shape, k: string): set<Node> {
    if k in s.kids then s.kids[k].all else {}
  }

  /** The place `k` of a target while the keys of `todo` are still to be merged: its maps are from the
      same place of the target or of the patch. */
  ghost predicate Placed(s: Shape, ps: Shape, cur: Shape, todo: set<string>, k: string) {
    if k in todo then (k in cur.kids <==> k in s.kids) && (k in s.kids ==> cur.kids[k] == s.kids[k])
    else k in cur.kids ==> cur.kids[k].all <= Own(s, k) + Own(ps, k)
  }

  ghost predicate Mixed(s: Shape, ps: Shape, cur: Shape, todo: set<string>) {
    && cur.node == s.node && Apart(cur) && cur.all <= s.all + ps.all
    && forall k {:trigger Placed(s, ps, cur, todo, k)} :: Placed(s, ps, cur, todo, k)
  }

  lemma OwnApart(s: Shape, ps: Shape, j: string, k: string)
    requires Apart(s) && Apart(ps) && s.all !! ps.all && j != k
    ensures Own(s, j) + Own(ps, j) !! Own(s, k) + Own(ps, k)
  {
  }

  lemma OwnInside(s: Shape, ps: Shape, k: string)
    requires Apart(s) && Apart(ps) && s.all !! ps.all
    ensures s.node !in Own(s, k) + Own(ps, k) && Own(s, k) + Own(ps, k) <= s.all + ps.all
  {
  }

  lemma MixedAdmits(s: Shape, ps: Shape, cur: Shape, todo: set<string>, k: string, kid: Shape)
    requires Apart(s) && Apart(ps) && s.all !! ps.all && Mixed(s, ps, cur, todo)
    requires Apart(kid) && kid.all <= Own(s, k) + Own(ps, k)
    ensures Admits(cur, k, kid)
  {
    OwnInside(s, ps, k);
    forall j | j in cur.kids && j != k ensures cur.kids[j].all !! kid.all {
      assert Placed(s, ps, cur, todo, j);
      OwnApart(s, ps, j, k);
    }
  }

  lemma MixedGrows(s: Shape, ps: Shape, cur: Shape, todo: set<string>, k: string, kid: Option<Shape>)
    requires Apart(s) && Apart(ps) && s.all !! ps.all && Mixed(s, ps, cur, todo) && k in todo
    requires kid.Some? ==> Apart(kid.value) && kid.value.all <= Own(s, k) + Own(ps, k)
    ensures Mixed(s, ps, WithKid(cur, k, kid), todo - {k})
  {
    if kid.Some? {
      MixedAdmits(s, ps, cur, todo, k, kid.value);
      OwnInside(s, ps, k);
    }
    WithKidIsApart(cur, k, kid);
    forall j ensures Placed(s, ps, WithKid(cur, k, kid), todo - {k}, j) {
      assert Placed(s, ps, cur, todo, j);
    }
  }

  ghost function MergedField(t: Tree, p: Tree, k: string): Tree
    requires t.Obj? && p.Obj? && k in p.fields
  {
    if k in t.fields && t.fields[k].Obj? && p.fields[k].Obj? then Merge(t.fields[k], p.fields[k]) else p.fields[k]
  }

  /** The field `k` of the target while the keys of `todo` are still to be merged. */
  ghost predicate Stage(t: Tree, p: Tree, part: Tree, todo: set<string>, k: string) {
    && t.Obj? && p.Obj? && part.Obj?
    && if k in p.fields && k !in todo then k in part.fields && part.fields[k] == MergedField(t, p, k)
       else Untouched(t, part, k)
  }

  ghost predicate Staged(t: Tree, p: Tree, part: Tree, todo: set<string>) {
    forall k {:trigger Stage(t, p, part, todo, k)} :: Stage(t, p, part, todo, k)
  }

  lemma StageNext(t: Tree, p: Tree, part: Tree, todo: set<string>, k: string)
    requires Staged(t, p, part, todo) && k in todo
    ensures t.Obj? && p.Obj? && Untouched(t, part, k)
    ensures k in p.fields ==> Staged(t, p, Obj(part.fields[k := MergedField(t, p, k)]), todo - {k})
  {
    assert Stage(t, p, part, todo, k);
    if k in p.fields {
      var next, rest := Obj(part.fields[k := MergedField(t, p, k)]), todo - {k};
      forall j ensures Stage(t, p, next, rest, j) {
        assert Stage(t, p, part, todo, j);
      }
    }
  }

  lemma StageEnds(t: Tree, p: Tree, part: Tree)
    requires t.Obj? && p.Obj?
    ensures Staged(t, p, t, p.fields.Keys)
    ensures Staged(t, p, part, {}) ==> part == Merge(t, p)
  {
    if Staged(t, p, part, {}) {
      assert Stage(t, p, part, {}, "");
      forall k ensures (k in part.fields <==> k in Merge(t, p).fields)
                       && (k in part.fields ==> part.fields[k] == Merge(t, p).fields[k]) {
        assert Stage(t, p, part, {}, k);
      }
    }
  }

  /** The field is still as it was in the target. */
  ghost predicate Untouched(t: Tree, part: Tree, k: string) {
    && t.Obj? && part.Obj? && (k in part.fields <==> k in t.fields)
    && (k in t.fields ==> part.fields[k] == t.fields[k])
  }

  /** Merges the fields of a patch, which it leaves alone, into a target. */
  method MergeObservation(target: Node, patch: Node, ghost s: Shape, ghost t: Tree, ghost ps: Shape, ghost p: Tree)
      returns (ghost s': Shape)
    requires Apart(s) && Holds(s, t) && target == s.node
    requires Apart(ps) && Holds(ps, p) && patch == ps.node && s.all !! ps.all
    modifies s.all
    ensures s'.node == target && s'.all <= s.all + ps.all && Apart(s') && Holds(s', Merge(t, p))
    decreases p, 1, 1
  {
    s' := s;
    ghost var part := t;
    var todo := patch.fields.Keys;
    StageEnds(t, p, t);
    while todo != {}
      invariant todo <= p.fields.Keys && Staged(t, p, part, todo)
      invariant Mixed(s, ps, s', todo) && Holds(s', part) && Holds(ps, p)
      decreases |todo|
    {
      var k :| k in todo;
      StageNext(t, p, part, todo, k);
      s' := MergeKey(target, patch, k, s, t, ps, p, s', part, todo);
      part := Obj(part.fields[k := MergedField(t, p, k)]);
      todo := todo - {k};
    }
    StageEnds(t, p, part);
  }

  method MergeKey(target: Node, patch: Node, k: string, ghost s: Shape, ghost t: Tree, ghost ps: Shape, ghost p: Tree,
                  ghost cur: Shape, ghost part: Tree, ghost todo: set<string>) returns (ghost next: Shape)
    requires Apart(s) && target == s.node
    requires Apart(ps) && Holds(ps, p) && patch == ps.node && s.all !! ps.all
    requires k in p.fields && k in todo && Untouched(t, part, k)
    requires Mixed(s, ps, cur, todo) && Holds(cur, part)
    modifies s.all
    ensures Mixed(s, ps, next, todo - {k}) && Holds(next, Obj(part.fields[k := MergedField(t, p, k)])) && Holds(ps, p)
    decreases p, 0, 1
  {
    assert Field(patch.fields[k], ps.kids, k, p.fields[k]);
    if k in target.fields { assert Field(target.fields[k], cur.kids, k, part.fields[k]); }
    if k in target.fields && target.fields[k].Ref? && patch.fields[k].Ref? {
      next := MergeNested(target, patch, k, s, t, ps, p, cur, part, todo);
    } else {
      next := Overwrite(target, patch, k, s, ps, p, cur, part, todo);
    }
  }

  method MergeNested(target: Node, patch: Node, k: string, ghost s: Shape, ghost t: Tree, ghost ps: Shape,
                     ghost p: Tree, ghost cur: Shape, ghost part: Tree, ghost todo: set<string>)
      returns (ghost next: Shape)
    requires Apart(s) && target == s.node
    requires Apart(ps) && Holds(ps, p) && patch == ps.node && s.all !! ps.all
    requires k in todo && Mixed(s, ps, cur, todo) && Holds(cur, part) && t.Obj?
    requires k in t.fields && k in part.fields && part.fields[k] == t.fields[k] && k in cur.kids
    requires k in p.fields && k in ps.kids && t.fields[k].Obj? && p.fields[k].Obj?
    requires target.fields[k] == Ref(cur.kids[k].node) && patch.fields[k] == Ref(ps.kids[k].node)
    modifies s.all
    ensures Mixed(s, ps, next, todo - {k}) && Holds(ps, p)
    ensures Holds(next, Obj(part.fields[k := Merge(t.fields[k], p.fields[k])]))
    decreases p, 0, 0
  {
    assert Placed(s, ps, cur, todo, k);
    assert Field(patch.fields[k], ps.kids, k, p.fields[k]);
    HoldsOthers(cur, part, k);
    ghost var merged := MergeObservation(target.fields[k].node, patch.fields[k].node, s.kids[k], t.fields[k],
                                         ps.kids[k], p.fields[k]);
    MixedAdmits(s, ps, cur, todo, k, merged);
    Replaced(cur, part, k, merged, Merge(t.fields[k], p.fields[k]));
    MixedGrows(s, ps, cur, todo, k, Some(merged));
    next := WithKid(cur, k, Some(merged));
  }

  method Overwrite(target: Node, patch: Node, k: string, ghost s: Shape, ghost ps: Shape, ghost p: Tree,
                   ghost cur: Shape, ghost part: Tree, ghost todo: set<string>) returns (ghost next: Shape)
    requires Apart(s) && target == s.node
    requires Apart(ps) && Holds(ps, p) && patch == ps.node && s.all !! ps.all
    requires k in p.fields && k in todo && Mixed(s, ps, cur, todo) && Holds(cur, part)
    modifies target
    ensures Mixed(s, ps, next, todo - {k}) && Holds(next, Obj(part.fields[k := p.fields[k]]))
  {
    ghost var kid: Option<Shape> := None;
    assert Field(patch.fields[k], ps.kids, k, p.fields[k]);
    if k in ps.kids {
      kid := Some(ps.kids[k]);
      MixedAdmits(s, ps, cur, todo, k, ps.kids[k]);
    }
    Put(target, k, patch.fields[k], cur, part, kid, p.fields[k]);
    MixedGrows(s, ps, cur, todo, k, kid);
    next := WithKid(cur, k, kid);
  }

  // ----- Applying a delta -----

  /** A snapshot that may be missing. */
  ghost predicate Shows(n: Node?, s: Option<Shape>, t: Option<Tree>)
    reads if s.Some? then s.value.all else {}
  {
    if n == null then s.None? && t.None?
    else s.Some? && t.Some? && Apart(s.value) && s.value.node == n && Holds(s.value, t.value)
  }

  /** Copies a snapshot by encoding and decoding it. */
  method CloneObservation(size: Tree -> nat, n: Node, ghost s: Shape, ghost t: Tree)
      returns (r: Node?, ghost rs: Option<Shape>)
    requires Apart(s) && Holds(s, t) && n == s.node
    ensures Shows(r, rs, if Clone(size, t).Ok? then Some(t) else None) && (rs.Some? ==> fresh(rs.value.all))
    ensures r != null <==> size(t) <= MAX_PACKET && Bounded(t, 0)
  {
    var v := Encode(n, s, t);
    if Clone(size, v).Err? { return null, None; }
    ghost var shape;
    r, shape := Build(v);
    rs := Some(shape);
  }

  /** A delta as it was received. */
  datatype Update = Update(base: nat, full: bool, patch: Node?, removed: seq<Path>)

  ghost function Meant(d: Update, p: Option<Tree>): Delta {
    Delta(d.base, d.full, p, d.removed)
  }

  /** The deletions of a delta, one after the other. */
  method RemoveFields(n: Node, removed: seq<Path>, ghost s: Shape, ghost t: Tree) returns (ok: bool, ghost s': Shape)
    requires Apart(s) && Holds(s, t) && n == s.node
    modifies s.all
    ensures ok <==> RemoveAll(t, removed).Ok?
    ensures ok ==> s'.node == n && s'.all <= s.all && Apart(s') && Holds(s', RemoveAll(t, removed).value)
  {
    s' := s;
    ghost var cut := t;
    for i := 0 to |removed|
      invariant RemoveAll(t, removed[..i]) == Ok(cut)
      invariant s'.node == n && s'.all <= s.all && Apart(s') && Holds(s', cut)
    {
      var path := removed[i];
      assert removed[..i + 1][..i] == removed[..i];
      ok := 0 < |path| <= MAX_DEPTH;
      if ok {
        ghost var next;
        ok, next := Remove(n, path, s', cut);
        if ok { s', cut := next, RemoveAt(cut, path).value; }
      }
      if !ok {
        RemovalErrorSticks(t, removed, i + 1);
        return;
      }
    }
    assert removed[..|removed|] == removed;
    ok := true;
  }

  /** Applies a delta. Nothing that existed before is changed: neither the old snapshot nor the
      delta, and the result shares no map with either. */
  method ApplyObservationDelta(size: Tree -> nat, base: nat, o: Node?, d: Update,
                               ghost os: Option<Shape>, ghost ot: Option<Tree>,
                               ghost ps: Option<Shape>, ghost pt: Option<Tree>)
      returns (r: Node?, ghost rs: Option<Shape>)
    requires Shows(o, os, ot) && Shows(d.patch, ps, pt)
    ensures var spec := Apply(size, base, ot, Meant(d, pt));
      Shows(r, rs, if spec.Ok? then Some(spec.value) else None)
    ensures rs.Some? ==> fresh(rs.value.all)
    ensures d.base != base ==> r == null
  {
    r, rs := null, None;
    if d.base != base { return; }
    if d.patch != null {
      var patch := Encode(d.patch, ps.value, pt.value);
      if !Bounded(patch, 0) { return; }
    }
    if d.full {
      if d.patch == null || d.removed != [] { return; }
      r, rs := CloneObservation(size, d.patch, ps.value, pt.value);
      return;
    }
    if o == null { return; }
    var next;
    ghost var ns;
    next, ns := CloneObservation(size, o, os.value, ot.value);
    if next == null { return; }
    r, rs := Patch(size, next, d.removed, d.patch, ns.value, ot.value, ps, pt);
  }

  /** Removes, merges and copies, on a snapshot that is not yet shared. */
  method Patch(size: Tree -> nat, next: Node, removed: seq<Path>, patch: Node?, ghost s: Shape, ghost t: Tree,
               ghost ps: Option<Shape>, ghost pt: Option<Tree>) returns (r: Node?, ghost rs: Option<Shape>)
    requires Apart(s) && Holds(s, t) && next == s.node && Shows(patch, ps, pt)
    requires ps.Some? ==> s.all !! ps.value.all
    modifies s.all
    ensures var cut := RemoveAll(t, removed);
      if cut.Err? then Shows(r, rs, None)
      else
        cut.value.Obj? &&
        var whole := if pt.Some? && pt.value.Obj? then Merge(cut.value, pt.value) else cut.value;
        Shows(r, rs, if Clone(size, whole).Ok? then Some(whole) else None)
    ensures rs.Some? ==> fresh(rs.value.all)
  {
    var ok;
    ghost var cs;
    ok, cs := RemoveFields(next, removed, s, t);
    if !ok { return null, None; }
    ghost var whole := RemoveAll(t, removed).value;
    if patch != null {
      cs := MergeObservation(next, patch, cs, whole, ps.value, pt.value);
      whole := Merge(whole, pt.value);
    }
    r, rs := CloneObservation(size, next, cs, whole);
  }
}
