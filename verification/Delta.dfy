/** The telemetry delta codec: a recursive difference of JSON objects, with removals
    listed as paths, and its application. Maps are walked in an arbitrary order. */
module Delta {
  import opened Common

  /** Numbers keep their text. */
  type Tree = Json<string>
  type Path = seq<string>

  const MAX_PACKET: nat := 16 * 1024 * 1024
  const MAX_DEPTH: nat := 64

  // ----- Snapshots -----

  predicate Bounded(v: Tree, depth: nat)
    decreases v
  {
    && depth <= MAX_DEPTH
    && (v.Obj? ==> forall k | k in v.fields :: Bounded(v.fields[k], depth + 1))
    && (v.Arr? ==> forall x | x in v.items :: Bounded(x, depth + 1))
  }

  /** Copying by encoding and decoding; `size` is the length of the encoding. */
  function Clone(size: Tree -> nat, v: Tree): Result<Tree> {
    if size(v) > MAX_PACKET || !Bounded(v, 0) then Err else Ok(v)
  }

  /** A snapshot that a copy has returned. */
  predicate Normalized(size: Tree -> nat, v: Tree) {
    v.Obj? && Clone(size, v) == Ok(v)
  }

  function Generation(v: Tree): Tree
    requires v.Obj?
  {
    if "xray_stats" in v.fields && v.fields["xray_stats"].Obj? && "generation" in v.fields["xray_stats"].fields
    then v.fields["xray_stats"].fields["generation"]
    else Null
  }

  // ----- Difference -----

  /** Both sides hold an object at `k`, and the two differ. */
  predicate Nested(o: Tree, n: Tree, k: string) {
    && o.Obj? && n.Obj? && k in o.fields && k in n.fields
    && o.fields[k] != n.fields[k] && o.fields[k].Obj? && n.fields[k].Obj?
  }

  predicate InPatch(o: Tree, n: Tree, k: string)
    requires o.Obj? && n.Obj?
    decreases n, 0
  {
    k in n.fields && if Nested(o, n, k) then Diff(o.fields[k], n.fields[k]) != Obj(map[])
                     else k !in o.fields || o.fields[k] != n.fields[k]
  }

  /** The fields to set; nested objects that only lose fields are left out. */
  function Diff(o: Tree, n: Tree): (r: Tree)
    requires o.Obj? && n.Obj?
    ensures r.Obj?
    decreases n
  {
    Obj(map k | k in n.fields && InPatch(o, n, k) ::
          if Nested(o, n, k) then Diff(o.fields[k], n.fields[k]) else n.fields[k])
  }

  /** `p` names a field that is in `o`, lies under objects of both, and is not in `n`. */
  predicate Removable(o: Tree, n: Tree, p: Path)
    decreases |p|
  {
    && p != [] && o.Obj? && n.Obj? && p[0] in o.fields
    && if |p| == 1 then p[0] !in n.fields
       else Nested(o, n, p[0]) && Removable(o.fields[p[0]], n.fields[p[0]], p[1..])
  }

  /** A listing, in any order, of all removals and of nothing else. */
  ghost predicate Lists(o: Tree, n: Tree, paths: seq<Path>) {
    Distinct(paths) && forall p :: p in paths <==> Removable(o, n, p)
  }

  function Under(path: Path, ps: seq<Path>): (r: seq<Path>)
    ensures |r| == |ps| && forall i | 0 <= i < |ps| :: r[i] == path + ps[i]
  {
    seq(|ps|, i requires 0 <= i < |ps| => path + ps[i])
  }

  lemma UnderAppends(path: Path, a: seq<Path>, b: seq<Path>)
    ensures Under(path, a + b) == Under(path, a) + Under(path, b)
  {}

  lemma AccumulatorGrows(path: Path, k: string, removed: seq<Path>, found: seq<Path>, sub: seq<Path>)
    ensures removed + Under(path, found) + Under(path + [k], sub) == removed + Under(path, found + Under([k], sub))
  {
    forall i | 0 <= i < |sub| ensures Under(path, Under([k], sub))[i] == Under(path + [k], sub)[i] {
      assert path + ([k] + sub[i]) == path + [k] + sub[i];
    }
    assert Under(path, Under([k], sub)) == Under(path + [k], sub);
    UnderAppends(path, found, Under([k], sub));
  }

  /** The removals found below the keys of `done`. */
  ghost predicate ListsBelow(o: Tree, n: Tree, done: set<string>, paths: seq<Path>) {
    Distinct(paths) && forall p :: p in paths <==> Removable(o, n, p) && |p| > 1 && p[0] in done
  }

  lemma BelowGrows(o: Tree, n: Tree, done: set<string>, paths: seq<Path>, k: string, sub: seq<Path>)
    requires ListsBelow(o, n, done, paths) && k !in done && Nested(o, n, k)
    requires Lists(o.fields[k], n.fields[k], sub)
    ensures ListsBelow(o, n, done + {k}, paths + Under([k], sub))
  {
    var more := Under([k], sub);
    forall p ensures p in more <==> Removable(o, n, p) && |p| > 1 && p[0] == k {
      if p in more {
        var i :| 0 <= i < |more| && more[i] == p;
        assert sub[i] in sub && p[1..] == sub[i];
      }
      if Removable(o, n, p) && |p| > 1 && p[0] == k {
        assert p[1..] in sub;
        var i :| 0 <= i < |sub| && sub[i] == p[1..];
        assert more[i] == p;
      }
    }
    forall i, j | 0 <= i < j < |more| ensures more[i] != more[j] {
      assert more[i][1..] == sub[i] && more[j][1..] == sub[j];
    }
    forall i, j | 0 <= i < |paths| && 0 <= j < |more| ensures paths[i] != more[j] {
      assert paths[i] in paths && more[j] in more;
    }
  }

  lemma BelowSkips(o: Tree, n: Tree, done: set<string>, paths: seq<Path>, k: string)
    requires ListsBelow(o, n, done, paths) && !Nested(o, n, k)
    ensures ListsBelow(o, n, done + {k}, paths)
  {}

  /** The part of the difference that concerns the keys of `done`. */
  ghost function PatchOf(o: Tree, n: Tree, done: set<string>): Tree
    requires o.Obj? && n.Obj?
  {
    Obj(map k | k in Diff(o, n).fields && k in done :: Diff(o, n).fields[k])
  }

  lemma PatchGrows(o: Tree, n: Tree, done: set<string>, k: string)
    requires o.Obj? && n.Obj? && k in n.fields && k !in done
    ensures PatchOf(o, n, done + {k}) ==
      if InPatch(o, n, k)
      then Obj(PatchOf(o, n, done).fields[k := if Nested(o, n, k) then Diff(o.fields[k], n.fields[k]) else n.fields[k]])
      else PatchOf(o, n, done)
  {}

  /** Walks both objects in an arbitrary order of their keys, appending removals through
      the accumulator. `found` is what this call contributes, relative to `path`. */
  method ObservationDiff(o: Tree, n: Tree, path: Path, removed: seq<Path>)
    returns (patch: Tree, all: seq<Path>, ghost found: seq<Path>)
    requires o.Obj? && n.Obj?
    ensures patch == Diff(o, n)
    ensures all == removed + Under(path, found) && Lists(o, n, found)
    decreases n, 1
  {
    patch, all, found := Obj(map[]), removed, [];
    var todo := n.fields.Keys;
    ghost var done: set<string> := {};
    while todo != {}
      invariant done + todo == n.fields.Keys && done !! todo
      invariant patch == PatchOf(o, n, done)
      invariant all == removed + Under(path, found) && ListsBelow(o, n, done, found)
      decreases |todo|
    {
      var k :| k in todo;
      patch, all, found := VisitKey(o, n, k, path, patch, all, done, found, removed);
      done, todo := done + {k}, todo - {k};
    }
    assert PatchOf(o, n, n.fields.Keys) == Diff(o, n);
    all, found := ListRemoved(o, n, path, all, found, removed);
  }

  /** One key of the new object: equal, nested, or to be set. */
  method VisitKey(o: Tree, n: Tree, k: string, path: Path, patch: Tree, all: seq<Path>,
                  ghost done: set<string>, ghost found: seq<Path>, ghost removed: seq<Path>)
    returns (patch': Tree, all': seq<Path>, ghost found': seq<Path>)
    requires o.Obj? && n.Obj? && k in n.fields && k !in done && patch == PatchOf(o, n, done)
    requires all == removed + Under(path, found) && ListsBelow(o, n, done, found)
    ensures patch' == PatchOf(o, n, done + {k})
    ensures all' == removed + Under(path, found') && ListsBelow(o, n, done + {k}, found')
    decreases n, 0
  {
    PatchGrows(o, n, done, k);
    patch', all', found' := patch, all, found;
    if k in o.fields && o.fields[k] == n.fields[k] {
      BelowSkips(o, n, done, found, k);
    } else if k in o.fields && o.fields[k].Obj? && n.fields[k].Obj? {
      var inner;
      ghost var sub;
      inner, all', sub := ObservationDiff(o.fields[k], n.fields[k], path + [k], all);
      BelowGrows(o, n, done, found, k, sub);
      AccumulatorGrows(path, k, removed, found, sub);
      found' := found + Under([k], sub);
      if inner.fields != map[] { patch' := Obj(patch.fields[k := inner]); }
    } else {
      BelowSkips(o, n, done, found, k);
      patch' := Obj(patch.fields[k := n.fields[k]]);
    }
  }

  /** The second loop: fields of the old object that the new one does not have. */
  method ListRemoved(o: Tree, n: Tree, path: Path, start: seq<Path>, ghost below: seq<Path>, ghost removed: seq<Path>)
    returns (all: seq<Path>, ghost found: seq<Path>)
    requires o.Obj? && n.Obj? && ListsBelow(o, n, n.fields.Keys, below) && start == removed + Under(path, below)
    ensures all == removed + Under(path, found) && Lists(o, n, found)
  {
    all, found := start, below;
    var todo := o.fields.Keys;
    while todo != {}
      invariant todo <= o.fields.Keys
      invariant all == removed + Under(path, found) && Distinct(found)
      invariant forall p :: p in found <==> Removable(o, n, p) && (|p| > 1 || p[0] !in todo)
      decreases |todo|
    {
      var k :| k in todo;
      if k !in n.fields {
        UnderAppends(path, found, [[k]]);
        assert [k] !in found;
        all, found := all + [path + [k]], found + [[k]];
        forall p ensures p in found <==> Removable(o, n, p) && (|p| > 1 || p[0] !in todo - {k}) {
          assert |p| == 1 && p[0] == k ==> p == [k];
        }
      }
      todo := todo - {k};
    }
  }

  // ----- Removal -----

  /** Deletes the field at the end of `p`; every parent must be an object. */
  function RemoveAt(t: Tree, p: Path): Result<Tree>
    requires p != []
    decreases |p|
  {
    if !t.Obj? || p[0] !in t.fields then Err
    else if |p| == 1 then Ok(Obj(t.fields - {p[0]}))
    else
      var child := RemoveAt(t.fields[p[0]], p[1..]);
      if child.Err? then Err else Ok(Obj(t.fields[p[0] := child.value]))
  }

  function RemoveAll(t: Tree, paths: seq<Path>): Result<Tree> {
    if paths == [] then Ok(t)
    else
      var before := RemoveAll(t, paths[..|paths| - 1]);
      var p := paths[|paths| - 1];
      if before.Err? || p == [] || |p| > MAX_DEPTH then Err else RemoveAt(before.value, p)
  }

  predicate Present(t: Tree, p: Path)
    decreases |p|
  {
    p != [] && t.Obj? && p[0] in t.fields && (|p| == 1 || Present(t.fields[p[0]], p[1..]))
  }

  function ValueAt(t: Tree, p: Path): Tree
    requires Present(t, p)
    decreases |p|
  {
    if |p| == 1 then t.fields[p[0]] else ValueAt(t.fields[p[0]], p[1..])
  }

  /** The generation is the field of that name; a missing one is a null one. */
  lemma GenerationIsTheField(v: Tree)
    requires v.Obj?
    ensures var p := ["xray_stats", "generation"];
      Generation(v) == if Present(v, p) then ValueAt(v, p) else Null
  {
    var p := ["xray_stats", "generation"];
    assert p[1..] == ["generation"];
    assert Present(v, p) <==> "xray_stats" in v.fields && Present(v.fields["xray_stats"], ["generation"]);
  }

  /** A difference holds only fields of the new snapshot that the old one lacks or has otherwise. */
  lemma {:induction false} PatchHoldsOnlyChanges(o: Tree, n: Tree, p: Path)
    requires o.Obj? && n.Obj? && Present(Diff(o, n), p)
    ensures Present(n, p) && (Present(o, p) ==> ValueAt(o, p) != ValueAt(n, p))
    decreases |p|
  {
    var k := p[0];
    assert InPatch(o, n, k);
    if |p| > 1 {
      assert Present(Diff(o, n).fields[k], p[1..]);
      if Present(o, p) { assert Present(o.fields[k], p[1..]); }
      if Nested(o, n, k) { PatchHoldsOnlyChanges(o.fields[k], n.fields[k], p[1..]); }
    }
  }

  /** `t` is `o` without some of the fields to be removed on the way to `n`. */
  ghost predicate Between(o: Tree, n: Tree, t: Tree)
    decreases n
  {
    && o.Obj? && n.Obj? && t.Obj?
    && t.fields.Keys <= o.fields.Keys && o.fields.Keys * n.fields.Keys <= t.fields.Keys
    && forall k | k in t.fields ::
         if Nested(o, n, k) then Between(o.fields[k], n.fields[k], t.fields[k]) else t.fields[k] == o.fields[k]
  }

  lemma {:induction false} StartsBetween(o: Tree, n: Tree)
    requires o.Obj? && n.Obj?
    ensures Between(o, n, o)
    decreases n
  {
    forall k | Nested(o, n, k) ensures Between(o.fields[k], n.fields[k], o.fields[k]) {
      StartsBetween(o.fields[k], n.fields[k]);
    }
  }

  lemma {:induction false} RemovableIsPresent(o: Tree, n: Tree, p: Path)
    requires Removable(o, n, p)
    ensures Present(o, p)
    decreases |p|
  {
    if |p| > 1 {
      RemovableIsPresent(o.fields[p[0]], n.fields[p[0]], p[1..]);
    }
  }

  /** One removal succeeds wherever it comes in the order, and disturbs no other. */
  lemma {:induction false} RemovalCommutes(o: Tree, n: Tree, t: Tree, p: Path, q: Path)
    requires Between(o, n, t) && Removable(o, n, p) && Present(t, p)
    ensures RemoveAt(t, p).Ok? && Between(o, n, RemoveAt(t, p).value)
    ensures Removable(o, n, q) ==> (Present(RemoveAt(t, p).value, q) <==> Present(t, q) && q != p)
    decreases |p|
  {
    var k := p[0];
    if |p| == 1 {
      assert p == [k];
      if Removable(o, n, q) && q[0] == k {
        assert q == [k];
      }
    } else {
      RemovalCommutes(o.fields[k], n.fields[k], t.fields[k], p[1..], if |q| > 1 then q[1..] else q);
      if Removable(o, n, q) && q[0] == k {
        assert |q| > 1;
        assert p == [k] + p[1..] && q == [k] + q[1..];
      }
    }
  }

  lemma {:induction false} RemovedSoFar(o: Tree, n: Tree, paths: seq<Path>, q: Path)
    requires Distinct(paths) && o.Obj? && n.Obj?
    requires forall p | p in paths :: Removable(o, n, p) && |p| <= MAX_DEPTH
    ensures RemoveAll(o, paths).Ok? && Between(o, n, RemoveAll(o, paths).value)
    ensures Removable(o, n, q) ==> (Present(RemoveAll(o, paths).value, q) <==> q !in paths)
  {
    if paths == [] {
      StartsBetween(o, n);
      if Removable(o, n, q) {
        RemovableIsPresent(o, n, q);
      }
    } else {
      var front, p := paths[..|paths| - 1], paths[|paths| - 1];
      assert paths == front + [p];
      assert p in paths && p !in front;
      RemovedSoFar(o, n, front, q);
      RemovedSoFar(o, n, front, p);
      RemovalCommutes(o, n, RemoveAll(o, front).value, p, q);
    }
  }

  // ----- Merge -----

  /** Objects are merged field by field, everything else is replaced. */
  function Merge(t: Tree, patch: Tree): (r: Tree)
    requires t.Obj? && patch.Obj?
    ensures r.Obj?
    decreases patch
  {
    Obj(map k | k in t.fields.Keys + patch.fields.Keys ::
          if k !in patch.fields then t.fields[k]
          else if k in t.fields && t.fields[k].Obj? && patch.fields[k].Obj? then Merge(t.fields[k], patch.fields[k])
          else patch.fields[k])
  }

  lemma MergeNothing(t: Tree)
    requires t.Obj?
    ensures Merge(t, Obj(map[])) == t
  {}

  /** Once every removal is done, merging the difference yields the new snapshot. */
  lemma {:induction false} MergeCompletes(o: Tree, n: Tree, t: Tree)
    requires Between(o, n, t) && forall p | Removable(o, n, p) :: !Present(t, p)
    ensures Merge(t, Diff(o, n)) == n
    decreases n
  {
    var m := Merge(t, Diff(o, n)).fields;
    forall k | k in t.fields ensures k in n.fields {
      if k !in n.fields {
        assert Removable(o, n, [k]);
      }
    }
    forall k | k in n.fields ensures k in m && m[k] == n.fields[k] {
      if Nested(o, n, k) {
        forall p | Removable(o.fields[k], n.fields[k], p) ensures !Present(t.fields[k], p) {
          var q := [k] + p;
          assert q[1..] == p && Removable(o, n, q);
        }
        MergeCompletes(o.fields[k], n.fields[k], t.fields[k]);
        MergesNested(o, n, t, k);
      } else {
        MergesPlain(o, n, t, k);
      }
    }
    assert m == n.fields;
  }

  lemma MergesNested(o: Tree, n: Tree, t: Tree, k: string)
    requires Between(o, n, t) && Nested(o, n, k) && t.fields[k].Obj?
    requires Merge(t.fields[k], Diff(o.fields[k], n.fields[k])) == n.fields[k]
    ensures var m := Merge(t, Diff(o, n)).fields; k in m && m[k] == n.fields[k]
  {
    var patch := Diff(o, n);
    if InPatch(o, n, k) {
      assert patch.fields[k] == Diff(o.fields[k], n.fields[k]);
    } else {
      assert k !in patch.fields;
      MergeNothing(t.fields[k]);
    }
  }

  lemma MergesPlain(o: Tree, n: Tree, t: Tree, k: string)
    requires Between(o, n, t) && k in n.fields && !Nested(o, n, k)
    ensures var m := Merge(t, Diff(o, n)).fields; k in m && m[k] == n.fields[k]
  {
    var patch := Diff(o, n);
    if InPatch(o, n, k) {
      assert patch.fields[k] == n.fields[k];
      assert k in t.fields ==> t.fields[k] == o.fields[k];
    } else {
      assert k !in patch.fields && k in o.fields && k in t.fields;
    }
  }

  // ----- Depth -----

  lemma {:induction false} DiffStaysBounded(o: Tree, n: Tree, depth: nat)
    requires o.Obj? && n.Obj? && Bounded(n, depth)
    ensures Bounded(Diff(o, n), depth)
    decreases n
  {
    forall k | Nested(o, n, k) ensures Bounded(Diff(o.fields[k], n.fields[k]), depth + 1) {
      DiffStaysBounded(o.fields[k], n.fields[k], depth + 1);
    }
  }

  lemma {:induction false} RemovalsAreShort(o: Tree, n: Tree, p: Path, depth: nat)
    requires Bounded(o, depth) && Removable(o, n, p)
    ensures depth + |p| <= MAX_DEPTH
    decreases |p|
  {
    if |p| > 1 {
      RemovalsAreShort(o.fields[p[0]], n.fields[p[0]], p[1..], depth + 1);
    } else {
      assert Bounded(o.fields[p[0]], depth + 1);
    }
  }

  // ----- Deltas -----

  /** `patch` is absent when the field is missing on the wire. */
  datatype Delta = Delta(base: nat, full: bool, patch: Option<Tree>, removed: seq<Path>)

  function Full(base: nat, next: Tree): Delta {
    Delta(base, true, Some(next), [])
  }

  /** The deltas that may stand for the step from `o` to `n`: a full snapshot always,
      a difference only within one core generation. */
  ghost predicate Describes(d: Delta, base: nat, o: Option<Tree>, n: Tree)
    requires n.Obj? && (o.Some? ==> o.value.Obj?)
  {
    || d == Full(base, n)
    || (o.Some? && Generation(o.value) == Generation(n)
        && d.base == base && !d.full && d.patch == Some(Diff(o.value, n)) && Lists(o.value, n, d.removed))
  }

  /** Every difference between the two snapshots encodes shorter than the new one in full. */
  ghost predicate PatchesAreShorter(bytes: Delta -> nat, base: nat, o: Option<Tree>, n: Tree)
    requires n.Obj? && (o.Some? ==> o.value.Obj?)
  {
    forall p | Describes(p, base, o, n) && !p.full :: bytes(p) < bytes(Full(base, n))
  }

  /** `bytes` is the length of an encoded delta; the shorter encoding is sent. */
  method MakeObservationDelta(bytes: Delta -> nat, base: nat, o: Option<Tree>, n: Tree) returns (d: Delta)
    requires n.Obj? && (o.Some? ==> o.value.Obj?)
    ensures Describes(d, base, o, n)
    ensures o.None? || Generation(o.value) != Generation(n) ==> d.full
    ensures !d.full ==> bytes(d) < bytes(Full(base, n))
    ensures o.Some? && Generation(o.value) == Generation(n) && PatchesAreShorter(bytes, base, o, n) ==> !d.full
  {
    if o.None? || Generation(o.value) != Generation(n) { return Full(base, n); }
    var patch, removed;
    ghost var found;
    patch, removed, found := ObservationDiff(o.value, n, [], []);
    forall i | 0 <= i < |found| ensures Under([], found)[i] == found[i] {
      assert [] + found[i] == found[i];
    }
    assert removed == found;
    d := Delta(base, false, Some(patch), removed);
    assert Describes(d, base, o, n);
    if bytes(d) >= bytes(Full(base, n)) { d := Full(base, n); }
  }

  function Apply(size: Tree -> nat, base: nat, o: Option<Tree>, d: Delta): Result<Tree>
    requires (o.Some? ==> o.value.Obj?) && (d.patch.Some? ==> d.patch.value.Obj?)
  {
    if d.base != base || (d.patch.Some? && !Bounded(d.patch.value, 0)) then Err
    else if d.full then
      if d.patch.None? || d.removed != [] then Err else Clone(size, d.patch.value)
    else if o.None? || Clone(size, o.value).Err? then Err
    else
      var cut := RemoveAll(o.value, d.removed);
      if cut.Err? || !cut.value.Obj? then Err
      else Clone(size, if d.patch.Some? then Merge(cut.value, d.patch.value) else cut.value)
  }

  lemma {:induction false} RemovalErrorSticks(t: Tree, paths: seq<Path>, i: nat)
    requires i <= |paths| && RemoveAll(t, paths[..i]).Err?
    ensures RemoveAll(t, paths).Err?
    decreases |paths| - i
  {
    if i < |paths| {
      assert paths[..i + 1][..i] == paths[..i];
      RemovalErrorSticks(t, paths, i + 1);
    } else {
      assert paths[..i] == paths;
    }
  }

  /** Round trip: whatever order the removals are listed in, applying the delta to the
      old snapshot gives exactly the new one. */
  lemma RoundTrip(size: Tree -> nat, base: nat, o: Option<Tree>, n: Tree, d: Delta)
    requires Normalized(size, n) && (o.Some? ==> Normalized(size, o.value)) && Describes(d, base, o, n)
    ensures Apply(size, base, o, d) == Ok(n)
  {
    if d != Full(base, n) {
      forall p | p in d.removed ensures |p| <= MAX_DEPTH {
        RemovalsAreShort(o.value, n, p, 0);
      }
      RemovedSoFar(o.value, n, d.removed, []);
      var t := RemoveAll(o.value, d.removed).value;
      forall q | Removable(o.value, n, q) ensures !Present(t, q) {
        RemovedSoFar(o.value, n, d.removed, q);
      }
      MergeCompletes(o.value, n, t);
      DiffStaysBounded(o.value, n, 0);
    }
  }

  /** Encoding omits an empty `set`, which decodes as an absent one. */
  function OverTheWire(d: Delta): Delta {
    if d.patch == Some(Obj(map[])) then d.(patch := None) else d
  }

  /** On the wire the only snapshot that does not arrive is an empty one sent in full. */
  lemma RoundTripOverTheWire(size: Tree -> nat, base: nat, o: Option<Tree>, n: Tree, d: Delta)
    requires Normalized(size, n) && (o.Some? ==> Normalized(size, o.value)) && Describes(d, base, o, n)
    ensures Apply(size, base, o, OverTheWire(d)) == Ok(n) <==> !(d.full && n == Obj(map[]))
    ensures d.full && n == Obj(map[]) ==> Apply(size, base, o, OverTheWire(d)) == Err
  {
    RoundTrip(size, base, o, n, d);
    if !d.full && d.patch == Some(Obj(map[])) {
      forall p | p in d.removed ensures |p| <= MAX_DEPTH {
        RemovalsAreShort(o.value, n, p, 0);
      }
      RemovedSoFar(o.value, n, d.removed, []);
      MergeNothing(RemoveAll(o.value, d.removed).value);
    }
  }
}
