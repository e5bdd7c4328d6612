/** Several parties edit one user list: grants reserve namespaces, the owner's edits keep
    reserved users, a consumer's edits replace only its own, and the running core is
    reconciled with the persisted list. */
module Federation {
  import opened Common

  // ----- Grants -----

  datatype Grant = Grant(id: string, namespace: string, tags: set<string>, revision: nat, signature: string)

  predicate Overlaps(a: string, b: string) {
    a == b || HasPrefix(a, b + ".") || HasPrefix(b, a + ".")
  }

  predicate Apart(grants: map<string, Grant>, i: string, j: string) {
    i in grants && j in grants && i != j ==> !Overlaps(grants[i].namespace, grants[j].namespace)
  }

  /** No two grants reserve overlapping namespaces. */
  ghost predicate Disjoint(grants: map<string, Grant>) {
    && (forall i | i in grants :: grants[i].id == i)
    && forall i, j {:trigger Apart(grants, i, j)} :: Apart(grants, i, j)
  }

  /** An email under two namespaces forces them to overlap. */
  lemma OneNamespacePerEmail(a: string, b: string, email: string)
    requires HasPrefix(email, a + ".") && HasPrefix(email, b + ".")
    ensures Overlaps(a, b)
  {
    if |a| == |b| {
      assert a == email[..|a|] == b;
    } else if |a| < |b| {
      assert b == email[..|b|];
      assert b[..|a| + 1] == email[..|a| + 1] == a + ".";
    } else {
      assert a == email[..|a|];
      assert a[..|b| + 1] == email[..|b| + 1] == b + ".";
    }
  }

  ghost predicate Shared(a: string, b: string, email: string) {
    HasPrefix(email, a + ".") && HasPrefix(email, b + ".")
  }

  /** Two namespaces overlap iff some email is under both. */
  lemma OverlapIff(a: string, b: string)
    ensures Overlaps(a, b) <==> exists email :: Shared(a, b, email)
  {
    if email :| Shared(a, b, email) { OneNamespacePerEmail(a, b, email); }
    if Overlaps(a, b) {
      var longer, shorter := if |a| >= |b| then a else b, if |a| >= |b| then b else a;
      var email := longer + ".";
      assert email[..|shorter| + 1] == shorter + ".";
      assert email[..|longer| + 1] == longer + ".";
      assert Shared(a, b, email);
    }
  }

  /** When a verified grant is admitted beside the stored ones. */
  ghost predicate Admits(grants: map<string, Grant>, g: Grant) {
    && (forall i | i in grants && i != g.id :: !Overlaps(grants[i].namespace, g.namespace))
    && (g.id in grants ==>
          var prior := grants[g.id];
          && g.revision >= prior.revision && g.namespace == prior.namespace
          && (g.revision == prior.revision ==> g.signature == prior.signature))
  }

  predicate Newer(grants: map<string, Grant>, g: Grant) {
    g.id in grants ==> g.revision > grants[g.id].revision
  }

  class GrantStore {
    var grants: map<string, Grant>

    constructor ()
      ensures grants == map[]
    {
      grants := map[];
    }

    /** `verified` stands for the signature, identity, scope and owner-pin checks, `writes` for
        the grant file being written. */
    method InstallFederationGrant(g: Grant, verified: bool, writes: bool) returns (ok: bool)
      requires Disjoint(grants)
      modifies this
      ensures Disjoint(grants)
      ensures ok <==> verified && Admits(old(grants), g) && (Newer(old(grants), g) ==> writes)
      ensures grants == if ok && Newer(old(grants), g) then old(grants)[g.id := g] else old(grants)
    {
      if !verified { return false; }
      var todo := grants.Keys;
      while todo != {}
        invariant todo <= grants.Keys
        invariant forall i | i in grants.Keys - todo && i != g.id :: !Overlaps(grants[i].namespace, g.namespace)
        decreases |todo|
      {
        var i :| i in todo;
        todo := todo - {i};
        if i != g.id && Overlaps(grants[i].namespace, g.namespace) { return false; }
      }
      if g.id in grants {
        var prior := grants[g.id];
        if g.revision < prior.revision || g.namespace != prior.namespace { return false; }
        if g.revision == prior.revision { return g.signature == prior.signature; }
      }
      if !writes { return false; }
      ghost var before := grants;
      grants := grants[g.id := g];
      forall i, j ensures Apart(grants, i, j) {
        assert Apart(before, i, j);
      }
      ok := true;
    }
  }

  /** The namespaces reserved on an inbound; revoked grants keep theirs. */
  function NamesFor(grants: map<string, Grant>, tag: string): set<string> {
    set i | i in grants && tag in grants[i].tags :: grants[i].namespace
  }

  ghost predicate PairwiseApart(names: set<string>) {
    forall a, b {:trigger Overlaps(a, b)} | a in names && b in names && a != b :: !Overlaps(a, b)
  }

  lemma ReservedNamesAreApart(grants: map<string, Grant>, tag: string)
    requires Disjoint(grants)
    ensures PairwiseApart(NamesFor(grants, tag))
  {
    forall a, b | a in NamesFor(grants, tag) && b in NamesFor(grants, tag) && a != b ensures !Overlaps(a, b) {
      var i :| i in grants && tag in grants[i].tags && grants[i].namespace == a;
      var j :| j in grants && tag in grants[j].tags && grants[j].namespace == b;
      assert Apart(grants, i, j);
    }
  }

  // ----- User lists -----

  datatype User = User(email: string, credential: string)

  function Filter(f: User -> bool, s: seq<User>): seq<User> {
    if s == [] then []
    else Filter(f, s[..|s| - 1]) + (if f(s[|s| - 1]) then [s[|s| - 1]] else [])
  }

  lemma {:induction false} FilterAppends(f: User -> bool, a: seq<User>, b: seq<User>)
    ensures Filter(f, a + b) == Filter(f, a) + Filter(f, b)
  {
    if b == [] {
      assert a + b == a;
    } else {
      FilterAppends(f, a, b[..|b| - 1]);
      assert (a + b)[..|a + b| - 1] == a + b[..|b| - 1];
    }
  }

  lemma {:induction false} FilterWithin(f: User -> bool, g: User -> bool, s: seq<User>)
    requires forall u :: f(u) ==> g(u)
    ensures Filter(f, Filter(g, s)) == Filter(f, s)
  {
    if s != [] {
      var front, last := s[..|s| - 1], s[|s| - 1];
      FilterWithin(f, g, front);
      FilterAppends(f, Filter(g, front), if g(last) then [last] else []);
      FilterOne(f, last);
    }
  }

  lemma FilterOne(f: User -> bool, u: User)
    ensures Filter(f, [u]) == (if f(u) then [u] else []) && Filter(f, []) == []
  {
    assert [u][..0] == [];
  }

  lemma {:induction false} FilterNone(f: User -> bool, s: seq<User>)
    requires forall u | u in s :: !f(u)
    ensures Filter(f, s) == []
  {
    if s != [] {
      FilterNone(f, s[..|s| - 1]);
    }
  }

  lemma {:induction false} FilterAll(f: User -> bool, s: seq<User>)
    requires forall u | u in s :: f(u)
    ensures Filter(f, s) == s
  {
    if s != [] {
      FilterAll(f, s[..|s| - 1]);
    }
  }

  lemma {:induction false} FilterHolds(f: User -> bool, s: seq<User>)
    ensures forall u | u in Filter(f, s) :: f(u) && u in s
  {
    if s != [] {
      FilterHolds(f, s[..|s| - 1]);
    }
  }

  function In(name: string): User -> bool {
    (u: User) => HasPrefix(u.email, name + ".")
  }

  function Outside(name: string): User -> bool {
    (u: User) => !HasPrefix(u.email, name + ".")
  }

  predicate IsReserved(names: set<string>, u: User) {
    exists n :: n in names && HasPrefix(u.email, n + ".")
  }

  function Reserved(names: set<string>): User -> bool {
    (u: User) => IsReserved(names, u)
  }

  function Free(names: set<string>): User -> bool {
    (u: User) => !IsReserved(names, u)
  }

  /** The owner's edit: its own users, then everybody's reserved ones as they were. */
  function OwnerList(names: set<string>, desired: seq<User>, existing: seq<User>): seq<User> {
    if names == {} then desired else Filter(Free(names), desired) + Filter(Reserved(names), existing)
  }

  function Rename(name: string, u: User): User {
    if HasPrefix(u.email, name + ".") then u else u.(email := name + "." + u.email)
  }

  function RenameAll(name: string, s: seq<User>): (r: seq<User>)
    ensures |r| == |s| && forall i | 0 <= i < |s| :: r[i] == Rename(name, s[i])
  {
    seq(|s|, i requires 0 <= i < |s| => Rename(name, s[i]))
  }

  /** A consumer's edit: everybody else's users as they were, then its own. */
  function ConsumerList(name: string, desired: seq<User>, existing: seq<User>): seq<User> {
    Filter(Outside(name), existing) + RenameAll(name, desired)
  }

  lemma RenamedIsInside(name: string, s: seq<User>, i: nat)
    requires i < |s|
    ensures HasPrefix(RenameAll(name, s)[i].email, name + ".")
  {
    assert (name + "." + s[i].email)[..|name + "."|] == name + ".";
  }

  /** The owner's edit sets the free part and leaves every namespace alone. */
  lemma OwnerEditIsIsolated(names: set<string>, desired: seq<User>, existing: seq<User>, name: string)
    requires name in names
    ensures var after := OwnerList(names, desired, existing);
      && Filter(Free(names), after) == Filter(Free(names), desired)
      && Filter(In(name), after) == Filter(In(name), existing)
  {
    var free, kept := Filter(Free(names), desired), Filter(Reserved(names), existing);
    FilterAppends(Free(names), free, kept);
    FilterAppends(In(name), free, kept);
    FilterWithin(Free(names), Free(names), desired);
    FilterHolds(Reserved(names), existing);
    FilterNone(Free(names), kept);
    FilterHolds(Free(names), desired);
    FilterNone(In(name), free);
    FilterWithin(In(name), Reserved(names), existing);
  }

  /** Without grants the owner's list is taken as it is. */
  lemma OwnerEditWithoutGrants(desired: seq<User>, existing: seq<User>)
    ensures OwnerList({}, desired, existing) == desired && Filter(Free({}), desired) == desired
  {
    FilterAll(Free({}), desired);
  }

  /** A consumer's edit sets its own namespace and leaves the rest alone. */
  lemma ConsumerEditIsIsolated(names: set<string>, name: string, desired: seq<User>, existing: seq<User>, other: string)
    requires name in names && other in names && (other != name ==> !Overlaps(name, other))
    ensures var after := ConsumerList(name, desired, existing);
      && Filter(In(name), after) == RenameAll(name, desired)
      && (other != name ==> Filter(In(other), after) == Filter(In(other), existing))
      && Filter(Free(names), after) == Filter(Free(names), existing)
  {
    var rest, mine := Filter(Outside(name), existing), RenameAll(name, desired);
    forall u | u in mine ensures HasPrefix(u.email, name + ".") {
      var i :| 0 <= i < |mine| && mine[i] == u;
      RenamedIsInside(name, desired, i);
    }
    FilterAppends(In(name), rest, mine);
    FilterHolds(Outside(name), existing);
    FilterNone(In(name), rest);
    FilterAll(In(name), mine);
    FilterAppends(Free(names), rest, mine);
    FilterNone(Free(names), mine);
    FilterWithin(Free(names), Outside(name), existing);
    if other != name {
      forall u: User | HasPrefix(u.email, name + ".") ensures !HasPrefix(u.email, other + ".") {
        if HasPrefix(u.email, other + ".") {
          OneNamespacePerEmail(name, other, u.email);
        }
      }
      FilterAppends(In(other), rest, mine);
      FilterNone(In(other), mine);
      FilterWithin(In(other), Outside(name), existing);
    }
  }

  /** `u` is `v` as the namespace stores it: the same credential, under an email inside. */
  predicate StoredAs(name: string, v: User, u: User) {
    && u.credential == v.credential
    && u.email == if HasPrefix(v.email, name + ".") then v.email else name + "." + v.email
  }

  /** A consumer that reads its users and sets them again changes nothing, in any part of the list. */
  lemma ReadThenSync(names: set<string>, name: string, list: seq<User>, other: string)
    requires name in names && other in names && (other != name ==> !Overlaps(name, other))
    ensures var after := ConsumerList(name, Filter(In(name), list), list);
      && Filter(In(name), after) == Filter(In(name), list)
      && Filter(In(other), after) == Filter(In(other), list)
      && Filter(Free(names), after) == Filter(Free(names), list)
  {
    var mine := Filter(In(name), list);
    ConsumerEditIsIsolated(names, name, mine, list, other);
    FilterHolds(In(name), list);
    forall i | 0 <= i < |mine| ensures RenameAll(name, mine)[i] == mine[i] {
      assert mine[i] in mine;
    }
  }

  // ----- The edits as the program computes them -----

  method PreserveFederationUsers(names: set<string>, desired: seq<User>, existing: seq<User>)
      returns (out: seq<User>)
    ensures out == OwnerList(names, desired, existing)
  {
    if names == {} { return desired; }
    out := [];
    for i := 0 to |desired|
      invariant out == Filter(Free(names), desired[..i])
    {
      assert desired[..i + 1][..i] == desired[..i];
      if !IsReserved(names, desired[i]) { out := out + [desired[i]]; }
    }
    assert desired[..|desired|] == desired;
    for i := 0 to |existing|
      invariant out == Filter(Free(names), desired) + Filter(Reserved(names), existing[..i])
    {
      assert existing[..i + 1][..i] == existing[..i];
      if IsReserved(names, existing[i]) { out := out + [existing[i]]; }
    }
    assert existing[..|existing|] == existing;
  }

  predicate GoodEmail(u: User) {
    u.email != "" && |u.email| <= 150
  }

  /** Splits off the consumer's users, then appends its new ones inside its namespace. */
  method ConsumerEdit(name: string, desired: seq<User>, existing: seq<User>)
      returns (mine: seq<User>, r: Result<seq<User>>)
    ensures mine == Filter(In(name), existing)
    ensures r.Ok? <==> forall u | u in desired :: u.email != "" && |u.email| <= 150
    ensures r.Ok? ==> r.value == ConsumerList(name, desired, existing)
    ensures r.Ok? ==>
      var others := Filter(Outside(name), existing);
      && |r.value| == |others| + |desired| && others <= r.value
      && forall i | 0 <= i < |desired| :: StoredAs(name, desired[i], r.value[|others| + i])
  {
    mine := [];
    var others := [];
    for i := 0 to |existing|
      invariant mine == Filter(In(name), existing[..i])
      invariant others == Filter(Outside(name), existing[..i])
    {
      assert existing[..i + 1][..i] == existing[..i];
      if HasPrefix(existing[i].email, name + ".") {
        mine := mine + [existing[i]];
      } else {
        others := others + [existing[i]];
      }
    }
    assert existing[..|existing|] == existing;
    for i := 0 to |desired|
      invariant others == ConsumerList(name, desired[..i], existing)
      invariant forall u | u in desired[..i] :: GoodEmail(u)
    {
      if !GoodEmail(desired[i]) { return mine, Err; }
      others := others + [Rename(name, desired[i])];
      assert RenameAll(name, desired[..i + 1]) == RenameAll(name, desired[..i]) + [Rename(name, desired[i])];
    }
    assert desired[..|desired|] == desired;
    r := Ok(others);
  }

  // ----- Reconciling the running core with the persisted list -----

  /** Builds the core's account for a configured user, or refuses it. */
  type Maker<!A> = User -> Option<A>

  /** The accounts a core started from `users` serves. */
  function Loaded<A>(mk: Maker<A>, users: seq<User>): map<string, A> {
    if users == [] then map[]
    else
      var rest, last := Loaded(mk, users[..|users| - 1]), users[|users| - 1];
      if mk(last).Some? then rest[last.email := mk(last).value] else rest
  }

  predicate Loadable<A>(mk: Maker<A>, users: seq<User>) {
    && (forall i | 0 <= i < |users| :: mk(users[i]).Some?)
    && (forall i, j | 0 <= i < j < |users| :: users[i].email != users[j].email)
  }

  /** In a loadable list every user is served with its own account and nobody else is. */
  lemma {:induction false} LoadedServes<A>(mk: Maker<A>, users: seq<User>)
    requires Loadable(mk, users)
    ensures forall i | 0 <= i < |users| ::
      users[i].email in Loaded(mk, users) && Loaded(mk, users)[users[i].email] == mk(users[i]).value
    ensures forall e | e in Loaded(mk, users) :: exists i :: 0 <= i < |users| && users[i].email == e
  {
    if users != [] {
      var front := users[..|users| - 1];
      LoadedServes(mk, front);
      assert users == front + [users[|users| - 1]];
      forall e | e in Loaded(mk, users) ensures exists i :: 0 <= i < |users| && users[i].email == e {
        if e != users[|users| - 1].email {
          var i :| 0 <= i < |front| && front[i].email == e;
          assert users[i].email == e;
        }
      }
    }
  }

  lemma LoadableGrows<A>(mk: Maker<A>, users: seq<User>, i: nat)
    requires i < |users| && Loadable(mk, users[..i])
    requires mk(users[i]).Some? && users[i].email !in Loaded(mk, users[..i])
    ensures Loadable(mk, users[..i + 1])
    ensures Loaded(mk, users[..i + 1]) == Loaded(mk, users[..i])[users[i].email := mk(users[i]).value]
  {
    LoadedServes(mk, users[..i]);
    assert users[..i + 1][..i] == users[..i];
    forall j | 0 <= j < i ensures users[j].email != users[i].email {
      assert users[..i][j].email in Loaded(mk, users[..i]);
    }
  }

  lemma LoadableBreaks<A>(mk: Maker<A>, users: seq<User>, i: nat)
    requires i < |users| && Loadable(mk, users[..i])
    requires mk(users[i]).None? || users[i].email in Loaded(mk, users[..i])
    ensures !Loadable(mk, users)
  {
    LoadedServes(mk, users[..i]);
    if users[i].email in Loaded(mk, users[..i]) {
      var j :| 0 <= j < i && users[..i][j].email == users[i].email;
      assert users[j].email == users[i].email;
    }
  }

  method ValidateUsers<A>(mk: Maker<A>, users: seq<User>) returns (r: Result<map<string, A>>)
    ensures r.Ok? <==> Loadable(mk, users)
    ensures r.Ok? ==> r.value == Loaded(mk, users)
  {
    var desired: map<string, A> := map[];
    for i := 0 to |users|
      invariant Loadable(mk, users[..i])
      invariant desired == Loaded(mk, users[..i])
    {
      if mk(users[i]).None? || users[i].email in desired {
        LoadableBreaks(mk, users, i);
        return Err;
      }
      LoadableGrows(mk, users, i);
      desired := desired[users[i].email := mk(users[i]).value];
    }
    assert users[..|users|] == users;
    r := Ok(desired);
  }

  /** The running users that a reconciliation leaves undisturbed. */
  function Unchanged<A(==)>(served: map<string, A>, wanted: map<string, A>): set<string> {
    set e | e in served && e in wanted && served[e] == wanted[e]
  }

  /** `target` is what is served already together with what is still to be added. */
  ghost predicate Splits<A>(target: map<string, A>, served: map<string, A>, left: map<string, A>) {
    && (forall e :: e in target <==> e in served || e in left)
    && (forall e | e in left :: e !in served)
    && (forall e | e in served :: served[e] == target[e])
    && (forall e | e in left :: left[e] == target[e])
  }

  lemma SplitMoves<A>(target: map<string, A>, served: map<string, A>, left: map<string, A>, e: string)
    requires Splits(target, served, left) && e in left
    ensures Splits(target, served[e := left[e]], left - {e})
  {
    forall d ensures d in target <==> d in served[e := left[e]] || d in left - {e} {
      assert d == e || (d in served[e := left[e]] <==> d in served);
    }
  }

  lemma OneFewer<A>(m: map<string, A>, e: string)
    requires e in m
    ensures |m - {e}| == |m| - 1
  {
    assert (m - {e}).Keys == m.Keys - {e};
  }

  lemma SplitEnds<A>(target: map<string, A>, served: map<string, A>)
    requires Splits(target, served, map[])
    ensures served == target
  {
    assert served.Keys == target.Keys;
  }

  /** Users are checked one by one: of those in `todo` nothing is known, the others are served
      exactly when they are wanted as they are, and only these are no longer missing. */
  ghost predicate Sifted<A>(current: map<string, A>, desired: map<string, A>, todo: set<string>,
                            served: map<string, A>, missing: map<string, A>, gone: set<string>) {
    var same := Unchanged(current, desired);
    && todo <= current.Keys
    && gone == current.Keys - todo - same
    && served == current - gone
    && missing == desired - (same - todo)
  }

  lemma SiftKeeps<A>(current: map<string, A>, desired: map<string, A>, todo: set<string>,
                     served: map<string, A>, missing: map<string, A>, gone: set<string>, e: string)
    requires Sifted(current, desired, todo, served, missing, gone) && e in todo
    requires e in missing && missing[e] == current[e]
    ensures Sifted(current, desired, todo - {e}, served, missing - {e}, gone)
  {
    var same := Unchanged(current, desired);
    assert e in same;
    assert current.Keys - (todo - {e}) - same == current.Keys - todo - same;
    assert same - (todo - {e}) == (same - todo) + {e};
    MinusTwice(desired, same - todo, e);
  }

  lemma SiftRemoves<A>(current: map<string, A>, desired: map<string, A>, todo: set<string>,
                       served: map<string, A>, missing: map<string, A>, gone: set<string>, e: string)
    requires Sifted(current, desired, todo, served, missing, gone) && e in todo
    requires !(e in missing && missing[e] == current[e])
    ensures Sifted(current, desired, todo - {e}, served - {e}, missing, gone + {e})
    ensures e !in gone
  {
    var same := Unchanged(current, desired);
    assert e !in same - todo;
    assert e in desired ==> e in missing && missing[e] == desired[e];
    assert e !in same;
    assert current.Keys - (todo - {e}) - same == (current.Keys - todo - same) + {e};
    assert same - (todo - {e}) == same - todo;
    MinusTwice(current, gone, e);
  }

  lemma MinusTwice<A>(m: map<string, A>, keys: set<string>, e: string)
    ensures (m - keys) - {e} == m - (keys + {e})
  {
  }

  lemma SiftStarts<A>(current: map<string, A>, desired: map<string, A>)
    ensures Sifted(current, desired, current.Keys, current, desired, {})
  {
    var same := Unchanged(current, desired);
    assert same - current.Keys == {} && current.Keys - current.Keys - same == {};
    assert desired - {} == desired && current - {} == current;
  }

  /** When nobody is left to check, what is served and what is missing make up the wanted map. */
  lemma SiftEnds<A>(current: map<string, A>, desired: map<string, A>,
                    served: map<string, A>, missing: map<string, A>, gone: set<string>)
    requires Sifted(current, desired, {}, served, missing, gone)
    ensures Splits(desired, served, missing)
    ensures missing.Keys == desired.Keys - Unchanged(current, desired)
    ensures gone == current.Keys - Unchanged(current, desired)
  {
    assert served.Keys == Unchanged(current, desired);
  }

  /** Removes the running users that are not wanted as they are; what is still to be added. */
  method RemoveStale<A(==)>(current: map<string, A>, desired: map<string, A>, healthy: bool)
      returns (ok: bool, served: map<string, A>, missing: map<string, A>, removed: nat)
    ensures healthy ==> ok
    ensures ok ==> Splits(desired, served, missing)
    ensures ok ==> missing.Keys == desired.Keys - Unchanged(current, desired)
    ensures ok ==> removed == |current.Keys - Unchanged(current, desired)|
  {
    var todo := current.Keys;
    ghost var gone: set<string> := {};
    served, missing, removed := current, desired, 0;
    SiftStarts(current, desired);
    while todo != {}
      invariant Sifted(current, desired, todo, served, missing, gone)
      invariant removed == |gone|
      decreases |todo|
    {
      var e :| e in todo;
      if e in missing && missing[e] == current[e] {
        SiftKeeps(current, desired, todo, served, missing, gone, e);
        missing := missing - {e};
      } else {
        var works := Attempt(healthy);
        if !works { return false, served, missing, removed; }
        SiftRemoves(current, desired, todo, served, missing, gone, e);
        served, gone, removed := served - {e}, gone + {e}, removed + 1;
      }
      todo := todo - {e};
    }
    SiftEnds(current, desired, served, missing, gone);
    ok := true;
  }

  method AddMissing<A>(ghost target: map<string, A>, kept: map<string, A>, missing: map<string, A>, healthy: bool)
      returns (ok: bool, served: map<string, A>, added: nat)
    requires Splits(target, kept, missing)
    ensures healthy ==> ok
    ensures ok ==> served == target && added == |missing|
  {
    var left := missing;
    served, added := kept, 0;
    while left != map[]
      invariant Splits(target, served, left) && added + |left| == |missing|
      decreases |left|
    {
      var e :| e in left;
      var works := Attempt(healthy);
      if !works { return false, served, added; }
      SplitMoves(target, served, left, e);
      OneFewer(left, e);
      served, left, added := served[e := left[e]], left - {e}, added + 1;
    }
    SplitEnds(target, served);
    ok := true;
  }

  datatype Edit = OwnerEdit(desired: seq<User>) | ConsumerEdited(name: string, desired: seq<User>) | Refused

  function After(names: set<string>, list: seq<User>, edit: Edit): seq<User> {
    match edit
    case OwnerEdit(desired) => OwnerList(names, desired, list)
    case ConsumerEdited(name, desired) => ConsumerList(name, desired, list)
    case Refused => list
  }

  /** One inbound that stores `clients`. */
  class Inbound<A(==)> {
    const mk: Maker<A>
    const names: set<string>   // the namespaces reserved on it
    const healthy: bool        // whether the core, the validator and the file system never fail
    var clients: seq<User>
    var served: Option<map<string, A>>

    /** A running core serves exactly the persisted users. */
    predicate Valid()
      reads this
    {
      served.Some? ==> Loadable(mk, clients) && served.value == Loaded(mk, clients)
    }

    constructor (mk: Maker<A>, names: set<string>, clients: seq<User>, healthy: bool)
      ensures Valid() && this.mk == mk && this.names == names && this.healthy == healthy
      ensures this.clients == clients && served == None
    {
      this.mk, this.names, this.healthy := mk, names, healthy;
      this.clients, served := clients, None;
    }

    method Start()
      requires Valid()
      modifies this`served
      ensures Valid()
      ensures old(served).Some? ==> served == old(served)
      ensures healthy && Loadable(mk, clients) ==> served.Some?
    {
      if served.Some? { return; }
      var works := Attempt(healthy);
      if !works { return; }
      var accounts := ValidateUsers(mk, clients);
      if accounts.Ok? { served := Some(accounts.value); }
    }

    method Recover()
      modifies this`served
      ensures Valid()
      ensures healthy && Loadable(mk, clients) ==> served.Some?
    {
      served := None;
      Start();
    }

    /** Either the list is replaced and the core serves it, the unchanged users undisturbed, or
        the list stays and the core is stopped or serves the old list; it serves it when at most the
        edit itself, which is `shaky`, fails. */
    method SyncUsers(users: seq<User>, shaky: bool) returns (ok: bool, added: nat, removed: nat)
      requires Valid()
      modifies this
      ensures Valid()
      ensures !ok ==> clients == old(clients)
      ensures ok ==> clients == users && Loadable(mk, users) && old(served).Some? && served.Some?
      ensures ok ==>
        var same := Unchanged(old(served).value, Loaded(mk, users));
        removed == |old(served).value.Keys - same| && added == |Loaded(mk, users).Keys - same|
      ensures ok && Loaded(mk, users) == old(served).value ==> added == 0 && removed == 0
      ensures healthy && !shaky ==> (ok <==> Loadable(mk, users) && old(served).Some?)
      ensures healthy && !ok ==> served == old(served)
    {
      var desired := ValidateUsers(mk, users);
      added, removed := 0, 0;
      if desired.Err? || served.None? { return false, 0, 0; }
      assert served.value == desired.value ==> served.value.Keys - Unchanged(served.value, desired.value) == {};
      var works := Attempt(healthy && !shaky);
      if !works { return false, 0, 0; }
      var missing, kept, all;
      ok, kept, missing, removed := RemoveStale(served.value, desired.value, healthy && !shaky);
      served := Some(kept);
      if !ok { Recover(); return; }
      ok, all, added := AddMissing(desired.value, kept, missing, healthy && !shaky);
      served := Some(all);
      if !ok { Recover(); return; }
      works := Attempt(healthy && !shaky);
      if !works { Recover(); return false, added, removed; }
      clients := users;
    }

    /** The owner replaces the list. */
    method SyncOwnerUsers(desired: seq<User>, shaky: bool) returns (ok: bool)
      requires Valid()
      modifies this
      ensures Valid()
      ensures clients == After(names, old(clients), if ok then OwnerEdit(desired) else Refused)
      ensures ok ==> served.Some?
      ensures healthy && !shaky ==>
        (ok <==> Loadable(mk, OwnerList(names, desired, old(clients))) && old(served).Some?)
      ensures healthy && !ok ==> served == old(served)
    {
      var users := PreserveFederationUsers(names, desired, clients);
      var done, _, _ := SyncUsers(users, shaky);
      ok := done;
    }

    /** A consumer replaces its own users. */
    method SyncConsumerUsers(name: string, desired: seq<User>, shaky: bool) returns (ok: bool)
      requires Valid()
      modifies this
      ensures Valid()
      ensures clients == After(names, old(clients), if ok then ConsumerEdited(name, desired) else Refused)
      ensures ok ==> served.Some? && forall u | u in desired :: GoodEmail(u)
      ensures healthy && !ok ==> served == old(served)
      ensures healthy && !shaky && (forall u | u in desired :: GoodEmail(u)) ==>
        (ok <==> Loadable(mk, ConsumerList(name, desired, old(clients))) && old(served).Some?)
    {
      var mine, users := ConsumerEdit(name, desired, clients);
      if users.Err? { return false; }
      var done, _, _ := SyncUsers(users.value, shaky);
      ok := done;
    }
  }

  // ----- Runs -----

  /** `lists` is the persisted list before and after each of `edits`. */
  ghost predicate IsRun(names: set<string>, lists: seq<seq<User>>, edits: seq<Edit>) {
    && |lists| == |edits| + 1
    && forall k {:trigger IsStep(names, lists, edits, k)} | 0 <= k < |edits| :: IsStep(names, lists, edits, k)
  }

  ghost predicate IsStep(names: set<string>, lists: seq<seq<User>>, edits: seq<Edit>, k: nat)
    requires |lists| == |edits| + 1 && k < |edits|
  {
    && lists[k + 1] == After(names, lists[k], edits[k])
    && (edits[k].ConsumerEdited? ==> edits[k].name in names)
  }

  /** What `name` set with its last edit among the first `k`, else what it started with. */
  function LastSet(name: string, start: seq<User>, edits: seq<Edit>, k: nat): seq<User>
    requires k <= |edits|
  {
    if k == 0 then Filter(In(name), start)
    else if edits[k - 1].ConsumerEdited? && edits[k - 1].name == name then RenameAll(name, edits[k - 1].desired)
    else LastSet(name, start, edits, k - 1)
  }

  /** What the owner last set among the first `k` edits, reserved names aside. */
  function LastFree(names: set<string>, start: seq<User>, edits: seq<Edit>, k: nat): seq<User>
    requires k <= |edits|
  {
    if k == 0 then Filter(Free(names), start)
    else if edits[k - 1].OwnerEdit? then Filter(Free(names), edits[k - 1].desired)
    else LastFree(names, start, edits, k - 1)
  }

  lemma EditIsIsolated(names: set<string>, list: seq<User>, edit: Edit, name: string)
    requires PairwiseApart(names) && name in names && (edit.ConsumerEdited? ==> edit.name in names)
    ensures Filter(In(name), After(names, list, edit)) ==
      if edit.ConsumerEdited? && edit.name == name then RenameAll(name, edit.desired) else Filter(In(name), list)
    ensures Filter(Free(names), After(names, list, edit)) ==
      if edit.OwnerEdit? then Filter(Free(names), edit.desired) else Filter(Free(names), list)
  {
    match edit {
      case OwnerEdit(desired) => OwnerEditIsIsolated(names, desired, list, name);
      case ConsumerEdited(editor, desired) =>
        assert editor != name ==> !Overlaps(editor, name);
        ConsumerEditIsIsolated(names, editor, desired, list, name);
      case Refused =>
    }
  }

  lemma {:induction false} NamespaceIsLastSet(names: set<string>, lists: seq<seq<User>>, edits: seq<Edit>, k: nat,
                                              name: string)
    requires IsRun(names, lists, edits) && PairwiseApart(names) && name in names && k <= |edits|
    ensures Filter(In(name), lists[k]) == LastSet(name, lists[0], edits, k)
  {
    if k > 0 {
      NamespaceIsLastSet(names, lists, edits, k - 1, name);
      assert IsStep(names, lists, edits, k - 1);
      EditIsIsolated(names, lists[k - 1], edits[k - 1], name);
    }
  }

  lemma {:induction false} RestIsLastFree(names: set<string>, lists: seq<seq<User>>, edits: seq<Edit>, k: nat,
                                          name: string)
    requires IsRun(names, lists, edits) && PairwiseApart(names) && name in names && k <= |edits|
    ensures Filter(Free(names), lists[k]) == LastFree(names, lists[0], edits, k)
  {
    if k > 0 {
      RestIsLastFree(names, lists, edits, k - 1, name);
      assert IsStep(names, lists, edits, k - 1);
      EditIsIsolated(names, lists[k - 1], edits[k - 1], name);
    }
  }

  /** Under any interleaving of edits every namespace holds exactly what its own last edit set,
      and the rest is what the owner last set. */
  lemma NamespacesAreIsolated(names: set<string>, lists: seq<seq<User>>, edits: seq<Edit>, k: nat, name: string)
    requires IsRun(names, lists, edits) && PairwiseApart(names) && name in names && k <= |edits|
    ensures Filter(In(name), lists[k]) == LastSet(name, lists[0], edits, k)
    ensures Filter(Free(names), lists[k]) == LastFree(names, lists[0], edits, k)
  {
    NamespaceIsLastSet(names, lists, edits, k, name);
    RestIsLastFree(names, lists, edits, k, name);
  }

  /** The projections account for the whole list: each user is free or in one namespace. */
  lemma ProjectionsCoverTheList(names: set<string>, list: seq<User>, u: User)
    requires PairwiseApart(names) && u in list
    ensures u in Filter(Free(names), list) <==> !IsReserved(names, u)
    ensures forall a, b | a in names && b in names && u in Filter(In(a), list) && u in Filter(In(b), list) :: a == b
    ensures IsReserved(names, u) ==> exists n :: n in names && u in Filter(In(n), list)
  {
    FilterMembers(Free(names), list, u);
    forall n ensures u in Filter(In(n), list) <==> HasPrefix(u.email, n + ".") {
      FilterMembers(In(n), list, u);
    }
    forall a, b | a in names && b in names && u in Filter(In(a), list) && u in Filter(In(b), list) ensures a == b {
      OneNamespacePerEmail(a, b, u.email);
    }
  }

  lemma {:induction false} FilterMembers(f: User -> bool, s: seq<User>, u: User)
    ensures u in Filter(f, s) <==> u in s && f(u)
  {
    if s != [] {
      FilterMembers(f, s[..|s| - 1], u);
      assert s == s[..|s| - 1] + [s[|s| - 1]];
    }
  }

  // ----- Replacing the whole configuration -----

  datatype Listener = Listener(tag: string, protocol: string, clients: Option<seq<User>>)

  function Users(l: Listener): seq<User> {
    if l.clients.Some? then l.clients.value else []
  }

  /** The first listener with this tag. */
  function Find(ls: seq<Listener>, tag: string): Option<Listener> {
    if ls == [] then None else if ls[0].tag == tag then Some(ls[0]) else Find(ls[1..], tag)
  }

  /** One listener of the owner's new configuration, with the reserved users carried over. */
  function Carried(names: set<string>, next: Listener, prior: Option<Listener>): Result<Listener> {
    if prior.None? then Ok(next)
    else
      var merged := OwnerList(names, Users(next), Users(prior.value));
      if |merged| > |Users(next)| && prior.value.protocol != next.protocol then Err
      else if merged != [] || next.clients.Some? then Ok(next.(clients := Some(merged)))
      else Ok(next)
  }

  function NamesOn(grants: map<string, Grant>, l: Listener): set<string> {
    NamesFor(grants, l.tag)
  }

  method PreserveFederationConfig(grants: map<string, Grant>, desired: seq<Listener>, existing: seq<Listener>)
      returns (r: Result<seq<Listener>>)
    ensures r.Err? <==> exists i | 0 <= i < |desired| ::
                          Carried(NamesOn(grants, desired[i]), desired[i], Find(existing, desired[i].tag)).Err?
    ensures r.Ok? ==> |r.value| == |desired| && forall i | 0 <= i < |desired| ::
      Carried(NamesOn(grants, desired[i]), desired[i], Find(existing, desired[i].tag)) == Ok(r.value[i])
  {
    var out := [];
    for i := 0 to |desired|
      invariant |out| == i
      invariant forall k | 0 <= k < i ::
        Carried(NamesOn(grants, desired[k]), desired[k], Find(existing, desired[k].tag)) == Ok(out[k])
    {
      var next := desired[i];
      var j := 0;
      while j < |existing| && existing[j].tag != next.tag
        invariant 0 <= j <= |existing|
        invariant Find(existing, next.tag) == Find(existing[j..], next.tag)
      {
        j := j + 1;
      }
      if j < |existing| {
        var names := NamesFor(grants, next.tag);
        var merged := PreserveFederationUsers(names, Users(next), Users(existing[j]));
        if |merged| > |Users(next)| && existing[j].protocol != next.protocol {
          return Err;
        }
        if |merged| > 0 || next.clients.Some? { next := next.(clients := Some(merged)); }
      }
      out := out + [next];
    }
    r := Ok(out);
  }

  /** A replacement configuration sets the free users of a listener and keeps every namespace's. */
  lemma ConfigKeepsNamespaces(names: set<string>, next: Listener, prior: Listener, name: string)
    requires name in names && Carried(names, next, Some(prior)).Ok?
    ensures var l := Carried(names, next, Some(prior)).value;
      && l.tag == next.tag && l.protocol == next.protocol
      && Filter(In(name), Users(l)) == Filter(In(name), Users(prior))
      && Filter(Free(names), Users(l)) == Filter(Free(names), Users(next))
  {
    OwnerEditIsIsolated(names, Users(next), Users(prior), name);
  }

  lemma {:induction false} FilterSplits(names: set<string>, s: seq<User>)
    ensures |Filter(Free(names), s)| + |Filter(Reserved(names), s)| == |s|
  {
    if s != [] {
      FilterSplits(names, s[..|s| - 1]);
    }
  }

  /** The guard against changing the protocol under a namespace's users counts: it fires exactly
      when more reserved users are kept than the owner's own list wrongly contains. */
  lemma ProtocolChangeIsRefusedIff(names: set<string>, next: Listener, prior: Listener)
    requires prior.protocol != next.protocol
    ensures Carried(names, next, Some(prior)).Err? <==>
      |Filter(Reserved(names), Users(prior))| > |Filter(Reserved(names), Users(next))| && names != {}
  {
    if names != {} {
      FilterSplits(names, Users(next));
    }
  }

  lemma RepeatedUser(names: set<string>, u: User, w: User)
    requires IsReserved(names, u) && IsReserved(names, w)
    ensures OwnerList(names, [u], [w]) == [w]
  {
    FilterOne(Free(names), u);
    FilterOne(Reserved(names), w);
  }

  /** So a configuration that repeats the reserved users does change the protocol under them. */
  lemma ProtocolChangeCanSlipThrough()
    ensures var next := Listener("in", "trojan", Some([User("a.bob", "x")]));
      var prior := Listener("in", "vless", Some([User("a.bob", "y")]));
      Carried({"a"}, next, Some(prior)) == Ok(next.(clients := prior.clients))
  {
    assert "a.bob"[..2] == "a" + ".";
    RepeatedUser({"a"}, User("a.bob", "x"), User("a.bob", "y"));
  }
}
