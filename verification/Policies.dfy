/** Per-user connection and address counts under admission, idempotent release and
    live reassignment, and the termination that a policy change demands. */
module Policies {
  import opened Common

  datatype Policy = Policy(userId: string, emails: seq<string>, bytesPerSecond: int, connectionLimit: int,
                           ipLimit: int, disabled: bool)

  datatype UserState = UserState(value: Policy, connections: int, ips: map<string, int>)

  /** `hook` names the terminate callback, if the session has one. */
  datatype Admission = Admission(email: string, ip: string, hook: Option<nat>)

  function Unrestricted(id: string): Policy {
    Policy(id, [], 0, 0, 0, false)
  }

  function NewUser(id: string): UserState {
    UserState(Unrestricted(id), 0, map[])
  }

  predicate BoundedPolicy(p: Policy) {
    p.disabled || p.bytesPerSecond > 0 || p.connectionLimit > 0 || p.ipLimit > 0
  }

  /** A credential without a policy is its own user. */
  function Owner(byEmail: map<string, string>, email: string): string {
    if email in byEmail && byEmail[email] != "" then byEmail[email] else email
  }

  /** The controller's tables. `called` are the hooks that the last policy change invoked;
      `atApply` remembers every user's counts at that change. */
  datatype Book = Book(byUser: map<string, UserState>, byEmail: map<string, string>, active: map<nat, Admission>,
                       unbounded: map<nat, Admission>, sequence: nat, called: set<nat>,
                       atApply: map<string, (int, int)>)

  // ----- Accounting -----

  ghost function Sessions(active: map<nat, Admission>, byEmail: map<string, string>, user: string): set<nat> {
    set i | i in active && Owner(byEmail, active[i].email) == user
  }

  ghost function SessionsFrom(active: map<nat, Admission>, byEmail: map<string, string>, user: string,
                              ip: string): set<nat> {
    set i | i in active && Owner(byEmail, active[i].email) == user && active[i].ip == ip
  }

  function Count(u: UserState, ip: string): int {
    if ip in u.ips then u.ips[ip] else 0
  }

  ghost predicate TalliedAt(u: UserState, active: map<nat, Admission>, byEmail: map<string, string>, user: string,
                            ip: string) {
    Count(u, ip) == |SessionsFrom(active, byEmail, user, ip)| && (ip in u.ips ==> u.ips[ip] > 0)
  }

  /** The counters of a user are the tally of the sessions it owns now. */
  ghost predicate Tallied(u: UserState, active: map<nat, Admission>, byEmail: map<string, string>, user: string) {
    && u.connections == |Sessions(active, byEmail, user)|
    && forall ip {:trigger TalliedAt(u, active, byEmail, user, ip)} :: TalliedAt(u, active, byEmail, user, ip)
  }

  function Entered(u: UserState, ip: string): UserState {
    u.(connections := u.connections + 1, ips := u.ips[ip := Count(u, ip) + 1])
  }

  function Left(u: UserState, ip: string): UserState {
    u.(connections := u.connections - 1,
       ips := if Count(u, ip) <= 1 then u.ips - {ip} else u.ips[ip := Count(u, ip) - 1])
  }

  lemma OneMore(before: set<nat>, after: set<nat>, i: nat)
    requires i !in before && forall j :: j in after <==> j in before || j == i
    ensures |after| == |before| + 1
  {
    assert after == before + {i};
  }

  lemma SessionsGrow(active: map<nat, Admission>, byEmail: map<string, string>, user: string, i: nat, a: Admission,
                     ip: string)
    requires i !in active && Owner(byEmail, a.email) == user
    ensures |Sessions(active[i := a], byEmail, user)| == |Sessions(active, byEmail, user)| + 1
    ensures |SessionsFrom(active[i := a], byEmail, user, ip)| ==
            |SessionsFrom(active, byEmail, user, ip)| + (if ip == a.ip then 1 else 0)
  {
    var more := active[i := a];
    OneMore(Sessions(active, byEmail, user), Sessions(more, byEmail, user), i);
    if ip == a.ip {
      OneMore(SessionsFrom(active, byEmail, user, ip), SessionsFrom(more, byEmail, user, ip), i);
    } else {
      assert SessionsFrom(more, byEmail, user, ip) == SessionsFrom(active, byEmail, user, ip);
    }
  }

  lemma EnteredIsTallied(u: UserState, active: map<nat, Admission>, byEmail: map<string, string>, user: string,
                         i: nat, a: Admission)
    requires Tallied(u, active, byEmail, user) && i !in active && Owner(byEmail, a.email) == user
    ensures Tallied(Entered(u, a.ip), active[i := a], byEmail, user)
  {
    var u2, more := Entered(u, a.ip), active[i := a];
    SessionsGrow(active, byEmail, user, i, a, a.ip);
    forall ip ensures TalliedAt(u2, more, byEmail, user, ip) {
      assert TalliedAt(u, active, byEmail, user, ip);
      SessionsGrow(active, byEmail, user, i, a, ip);
    }
  }

  lemma OthersAreUntouched(u: UserState, active: map<nat, Admission>, byEmail: map<string, string>, user: string,
                           i: nat, a: Admission)
    requires Owner(byEmail, a.email) != user && i !in active
    ensures Tallied(u, active[i := a], byEmail, user) <==> Tallied(u, active, byEmail, user)
  {
    var more := active[i := a];
    assert Sessions(more, byEmail, user) == Sessions(active, byEmail, user);
    forall ip ensures TalliedAt(u, more, byEmail, user, ip) <==> TalliedAt(u, active, byEmail, user, ip) {
      assert SessionsFrom(more, byEmail, user, ip) == SessionsFrom(active, byEmail, user, ip);
    }
  }

  lemma LeftIsTallied(u: UserState, active: map<nat, Admission>, byEmail: map<string, string>, user: string, i: nat)
    requires Tallied(u, active, byEmail, user) && i in active && Owner(byEmail, active[i].email) == user
    ensures Tallied(Left(u, active[i].ip), active - {i}, byEmail, user)
    ensures u.connections > 0 && active[i].ip in u.ips
  {
    var less, a := active - {i}, active[i];
    assert less[i := a] == active;
    SessionsGrow(less, byEmail, user, i, a, a.ip);
    forall ip ensures TalliedAt(Left(u, a.ip), less, byEmail, user, ip) {
      assert TalliedAt(u, active, byEmail, user, ip);
      SessionsGrow(less, byEmail, user, i, a, ip);
    }
    assert TalliedAt(u, active, byEmail, user, a.ip);
  }

  // ----- Limits -----

  /** Counts at the last apply; a user met later starts at nothing. */
  function At(counts: map<string, (int, int)>, id: string): (int, int) {
    if id in counts then counts[id] else (0, 0)
  }

  ghost predicate Limited(u: UserState, at: (int, int)) {
    && (u.value.connectionLimit > 0 ==> u.connections <= Max(u.value.connectionLimit, at.0))
    && (u.value.ipLimit > 0 ==> |u.ips| <= Max(u.value.ipLimit, at.1))
  }

  predicate MayEnter(u: UserState, ip: string) {
    && !u.value.disabled
    && !(u.value.connectionLimit > 0 && u.connections >= u.value.connectionLimit)
    && !(u.value.ipLimit > 0 && Count(u, ip) == 0 && |u.ips| >= u.value.ipLimit)
  }

  lemma EnteringKeepsLimits(u: UserState, ip: string, at: (int, int))
    requires Limited(u, at) && MayEnter(u, ip) && (ip in u.ips ==> u.ips[ip] > 0)
    ensures Limited(Entered(u, ip), at)
  {
    var more := u.ips[ip := Count(u, ip) + 1];
    assert more.Keys == u.ips.Keys + {ip};
    if ip in u.ips {
      assert more.Keys == u.ips.Keys;
    }
  }

  lemma LeavingKeepsLimits(u: UserState, ip: string, at: (int, int))
    requires Limited(u, at) && ip in u.ips
    ensures Limited(Left(u, ip), at)
  {
    if Count(u, ip) <= 1 {
      assert (u.ips - {ip}).Keys == u.ips.Keys - {ip};
      assert |(u.ips - {ip}).Keys| < |u.ips.Keys|;
    } else {
      assert u.ips[ip := Count(u, ip) - 1].Keys == u.ips.Keys;
    }
  }

  // ----- The invariant -----

  ghost predicate UserOk(b: Book, id: string) {
    id in b.byUser ==>
      && b.byUser[id].value.userId == id
      && Tallied(b.byUser[id], b.active, b.byEmail, id)
      && Limited(b.byUser[id], At(b.atApply, id))
  }

  /** A session has an owner on the books; if that owner is disabled, the last policy change
      has called the session's hook. */
  ghost predicate SessionOk(b: Book, i: nat) {
    i in b.active ==>
      var user := Owner(b.byEmail, b.active[i].email);
      && i <= b.sequence && user in b.byUser
      && (b.byUser[user].value.disabled && b.active[i].hook.Some? ==> b.active[i].hook.value in b.called)
  }

  /** The last policy change has called the hook of an unbounded transfer whose user is bounded. */
  ghost predicate SpliceOk(b: Book, i: nat) {
    i in b.unbounded ==>
      var user := Owner(b.byEmail, b.unbounded[i].email);
      && i <= b.sequence
      && (user in b.byUser && BoundedPolicy(b.byUser[user].value) && b.unbounded[i].hook.Some? ==>
            b.unbounded[i].hook.value in b.called)
  }

  ghost predicate Good(b: Book) {
    && (forall id {:trigger UserOk(b, id)} :: UserOk(b, id))
    && (forall i: nat {:trigger SessionOk(b, i)} :: SessionOk(b, i))
    && (forall i: nat {:trigger SpliceOk(b, i)} :: SpliceOk(b, i))
  }

  // ----- The operations, on values -----

  function UserOf(b: Book, user: string): UserState {
    if user in b.byUser then b.byUser[user] else NewUser(user)
  }

  /** The books once the state answering for `email` exists. */
  function Opened(b: Book, email: string): Book {
    var user := Owner(b.byEmail, email);
    b.(byUser := b.byUser[user := UserOf(b, user)])
  }

  function Admitted(b: Book, a: Admission): Book {
    var user := Owner(b.byEmail, a.email);
    b.(byUser := b.byUser[user := Entered(UserOf(b, user), a.ip)], sequence := b.sequence + 1,
       active := b.active[b.sequence + 1 := a])
  }

  function Released(b: Book, i: nat): Book
    requires i in b.active
  {
    var a := b.active[i];
    var user := Owner(b.byEmail, a.email);
    b.(byUser := b.byUser[user := Left(UserOf(b, user), a.ip)], active := b.active - {i})
  }

  function Spliced(b: Book, a: Admission): Book {
    Opened(b, a.email).(sequence := b.sequence + 1, unbounded := b.unbounded[b.sequence + 1 := a])
  }

  lemma OpeningIsGood(b: Book, email: string)
    requires Good(b)
    ensures Good(Opened(b, email))
  {
    var user, b2 := Owner(b.byEmail, email), Opened(b, email);
    forall id ensures UserOk(b2, id) {
      assert UserOk(b, id);
      if id == user && user !in b.byUser {
        NoSessions(b, user);
      }
    }
    forall i: nat ensures SessionOk(b2, i) && SpliceOk(b2, i) {
      assert SessionOk(b, i) && SpliceOk(b, i);
    }
  }

  lemma NoSessions(b: Book, user: string)
    requires Good(b) && user !in b.byUser
    ensures Tallied(NewUser(user), b.active, b.byEmail, user)
  {
    forall i | i in b.active ensures Owner(b.byEmail, b.active[i].email) != user {
      assert SessionOk(b, i);
    }
    assert Sessions(b.active, b.byEmail, user) == {};
    forall ip ensures TalliedAt(NewUser(user), b.active, b.byEmail, user, ip) {
      assert SessionsFrom(b.active, b.byEmail, user, ip) == {};
    }
  }

  lemma AdmissionIsGood(b: Book, a: Admission)
    requires Good(b) && MayEnter(UserOf(b, Owner(b.byEmail, a.email)), a.ip)
    ensures Good(Admitted(b, a))
  {
    var user, i := Owner(b.byEmail, a.email), b.sequence + 1;
    var o, b2 := Opened(b, a.email), Admitted(b, a);
    OpeningIsGood(b, a.email);
    assert SessionOk(b, i);
    forall id ensures UserOk(b2, id) {
      assert UserOk(o, id);
      if id == user {
        EnteredIsTallied(o.byUser[user], b.active, b.byEmail, user, i, a);
        assert TalliedAt(o.byUser[user], b.active, b.byEmail, user, a.ip);
        EnteringKeepsLimits(o.byUser[user], a.ip, At(b.atApply, user));
      } else if id in b.byUser {
        OthersAreUntouched(b.byUser[id], b.active, b.byEmail, id, i, a);
      }
    }
    forall j: nat ensures SessionOk(b2, j) && SpliceOk(b2, j) {
      assert SessionOk(o, j) && SpliceOk(o, j);
    }
  }

  lemma ReleaseIsGood(b: Book, i: nat)
    requires Good(b) && i in b.active
    ensures Good(Released(b, i))
    ensures Owner(b.byEmail, b.active[i].email) in b.byUser
  {
    var a := b.active[i];
    var user, b2 := Owner(b.byEmail, a.email), Released(b, i);
    assert SessionOk(b, i);
    assert b2.active[i := a] == b.active;
    forall id ensures UserOk(b2, id) {
      assert UserOk(b, id);
      if id == user {
        LeftIsTallied(b.byUser[user], b.active, b.byEmail, user, i);
        LeavingKeepsLimits(b.byUser[user], a.ip, At(b.atApply, user));
      } else if id in b.byUser {
        OthersAreUntouched(b.byUser[id], b2.active, b.byEmail, id, i, a);
      }
    }
    forall j: nat ensures SessionOk(b2, j) && SpliceOk(b2, j) {
      assert SessionOk(b, j) && SpliceOk(b, j);
    }
  }

  lemma SpliceIsGood(b: Book, a: Admission)
    requires Good(b) && !BoundedPolicy(UserOf(b, Owner(b.byEmail, a.email)).value)
    ensures Good(Spliced(b, a))
  {
    var o, b2 := Opened(b, a.email), Spliced(b, a);
    OpeningIsGood(b, a.email);
    forall id ensures UserOk(b2, id) {
      assert UserOk(o, id);
    }
    forall j: nat ensures SessionOk(b2, j) && SpliceOk(b2, j) {
      assert SessionOk(o, j) && SpliceOk(o, j);
    }
  }

  // ----- Policy changes -----

  /** The last policy listed for a user, or none at all. */
  function PolicyOf(list: seq<Policy>, id: string): Policy {
    if list == [] then Unrestricted(id)
    else if list[|list| - 1].userId == id then list[|list| - 1]
    else PolicyOf(list[..|list| - 1], id)
  }

  function Assign(m: map<string, string>, emails: seq<string>, id: string): map<string, string> {
    if emails == [] then m else Assign(m, emails[..|emails| - 1], id)[emails[|emails| - 1] := id]
  }

  function EmailMap(list: seq<Policy>): map<string, string> {
    if list == [] then map[]
    else var v := list[|list| - 1]; Assign(EmailMap(list[..|list| - 1]), v.emails, v.userId)
  }

  /** The policy that answers for a credential under a list. */
  function PolicyFor(list: seq<Policy>, email: string): Policy {
    PolicyOf(list, Owner(EmailMap(list), email))
  }

  /** The hooks that a list demands to be called. */
  ghost function SessionHooks(list: seq<Policy>, active: map<nat, Admission>): set<nat> {
    set i | i in active && active[i].hook.Some? && PolicyFor(list, active[i].email).disabled :: active[i].hook.value
  }

  ghost function SpliceHooks(list: seq<Policy>, unbounded: map<nat, Admission>): set<nat> {
    set i | i in unbounded && unbounded[i].hook.Some? && BoundedPolicy(PolicyFor(list, unbounded[i].email)) ::
      unbounded[i].hook.value
  }

  function Counts(byUser: map<string, UserState>): map<string, (int, int)> {
    map id | id in byUser :: (byUser[id].connections, |byUser[id].ips|)
  }

  ghost predicate PoliciesOf(byUser: map<string, UserState>, list: seq<Policy>) {
    && (forall id | id in byUser :: byUser[id].value == PolicyOf(list, id) && byUser[id].value.userId == id)
    && (forall v | v in list :: v.userId in byUser)
  }

  /** What a policy change leaves: the listed policies and credentials, every demanded
      hook called, sessions and transfers as they were. */
  ghost predicate Reassigned(b: Book, list: seq<Policy>, b2: Book) {
    && b2.byEmail == EmailMap(list) && PoliciesOf(b2.byUser, list)
    && b2.active == b.active && b2.unbounded == b.unbounded && b2.sequence == b.sequence
    && b2.called == SessionHooks(list, b.active) + SpliceHooks(list, b.unbounded)
    && b2.atApply == Counts(b2.byUser)
  }

  predicate Listed(list: seq<Policy>, id: string) {
    exists v :: v in list && v.userId == id
  }

  lemma {:induction false} PolicyOfFacts(list: seq<Policy>, id: string)
    ensures PolicyOf(list, id).userId == id && (!Listed(list, id) ==> PolicyOf(list, id) == Unrestricted(id))
  {
    if list != [] {
      assert list == list[..|list| - 1] + [list[|list| - 1]];
      PolicyOfFacts(list[..|list| - 1], id);
    }
  }

  /** Counters back to nothing; users without a listed policy lose theirs. */
  function Cleared(byUser: map<string, UserState>, desired: set<string>): map<string, UserState> {
    map id | id in byUser ::
      var policy := byUser[id].value;
      UserState(if policy.userId in desired then policy else Unrestricted(policy.userId), 0, map[])
  }

  lemma OneMorePolicy(list: seq<Policy>, k: nat)
    requires k < |list|
    ensures var v := list[k];
      && EmailMap(list[..k + 1]) == Assign(EmailMap(list[..k]), v.emails, v.userId)
      && Listed(list, v.userId)
      && (forall x :: x in list[..k + 1] <==> x in list[..k] || x == v)
      && (forall id :: Listed(list[..k + 1], id) <==> Listed(list[..k], id) || id == v.userId)
  {
    assert list[..k + 1] == list[..k] + [list[k]];
    assert list[..k + 1][..k] == list[..k];
    assert list[k] in list && list[k] in list[..k + 1];
    forall id ensures Listed(list[..k + 1], id) <==> Listed(list[..k], id) || id == list[k].userId {
      if Listed(list[..k], id) {
        var v :| v in list[..k] && v.userId == id;
        assert v in list[..k + 1];
      }
    }
  }

  lemma OneMorePolicyOf(list: seq<Policy>, k: nat, id: string)
    requires k < |list|
    ensures PolicyOf(list[..k + 1], id) == if id == list[k].userId then list[k] else PolicyOf(list[..k], id)
  {
    assert list[..k + 1][..k] == list[..k];
  }

  method InstallPolicies(start: map<string, UserState>, list: seq<Policy>)
      returns (byUser: map<string, UserState>, byEmail: map<string, string>)
    requires forall id | id in start :: start[id].value.userId == id
    ensures byEmail == EmailMap(list) && PoliciesOf(byUser, list) && start.Keys <= byUser.Keys
    ensures forall id | id in byUser :: byUser[id].connections == 0 && byUser[id].ips == map[]
  {
    byUser, byEmail := Cleared(start, set v | v in list :: v.userId), map[];
    for k := 0 to |list|
      invariant byEmail == EmailMap(list[..k]) && start.Keys <= byUser.Keys
      invariant forall v | v in list[..k] :: v.userId in byUser
      invariant forall id | id in byUser :: byUser[id].connections == 0 && byUser[id].ips == map[]
      invariant forall id | id in byUser && (Listed(list[..k], id) || !Listed(list, id)) ::
        byUser[id].value == PolicyOf(list[..k], id)
    {
      var v := list[k];
      OneMorePolicy(list, k);
      byUser := byUser[v.userId := UserState(v, 0, map[])];
      byEmail := AssignEmails(byEmail, v.emails, v.userId);
      forall id | id in byUser && (Listed(list[..k + 1], id) || !Listed(list, id))
        ensures byUser[id].value == PolicyOf(list[..k + 1], id)
      {
        OneMorePolicyOf(list, k, id);
      }
    }
    assert list[..|list|] == list;
    forall id | id in byUser ensures byUser[id].value == PolicyOf(list, id) && byUser[id].value.userId == id {
      PolicyOfFacts(list, id);
    }
  }

  method AssignEmails(start: map<string, string>, emails: seq<string>, id: string) returns (m: map<string, string>)
    ensures m == Assign(start, emails, id)
  {
    m := start;
    for k := 0 to |emails|
      invariant m == Assign(start, emails[..k], id)
    {
      assert emails[..k + 1][..k] == emails[..k];
      m := m[emails[k] := id];
    }
    assert emails[..|emails|] == emails;
  }

  ghost predicate Recounted(byUser: map<string, UserState>, byEmail: map<string, string>, part: map<nat, Admission>) {
    && (forall id | id in byUser :: Tallied(byUser[id], part, byEmail, id))
    && (forall i | i in part :: Owner(byEmail, part[i].email) in byUser)
  }

  lemma EmptyCount(byUser: map<string, UserState>, byEmail: map<string, string>)
    requires forall id | id in byUser :: byUser[id].connections == 0 && byUser[id].ips == map[]
    ensures Recounted(byUser, byEmail, map[])
  {
    var none: map<nat, Admission> := map[];
    forall id | id in byUser ensures Tallied(byUser[id], none, byEmail, id) {
      assert Sessions(none, byEmail, id) == {};
      forall ip ensures TalliedAt(byUser[id], none, byEmail, id, ip) {
        assert SessionsFrom(none, byEmail, id, ip) == {};
      }
    }
  }

  function Joined(byUser: map<string, UserState>, user: string, ip: string): map<string, UserState> {
    byUser[user := Entered(if user in byUser then byUser[user] else NewUser(user), ip)]
  }

  lemma OneMoreCounted(byUser: map<string, UserState>, byEmail: map<string, string>, part: map<nat, Admission>,
                       i: nat, a: Admission)
    requires Recounted(byUser, byEmail, part) && i !in part
    ensures Recounted(Joined(byUser, Owner(byEmail, a.email), a.ip), byEmail, part[i := a])
  {
    var user, more := Owner(byEmail, a.email), part[i := a];
    var after := Joined(byUser, user, a.ip);
    forall id | id in after ensures Tallied(after[id], more, byEmail, id) {
      if id == user {
        if user !in byUser {
          assert Sessions(part, byEmail, user) == {};
          forall ip ensures TalliedAt(NewUser(user), part, byEmail, user, ip) {
            assert SessionsFrom(part, byEmail, user, ip) == {};
          }
        }
        EnteredIsTallied(if user in byUser then byUser[user] else NewUser(user), part, byEmail, user, i, a);
      } else {
        OthersAreUntouched(byUser[id], part, byEmail, id, i, a);
      }
    }
  }

  lemma JoiningKeepsPolicies(byUser: map<string, UserState>, list: seq<Policy>, user: string, ip: string)
    requires PoliciesOf(byUser, list)
    ensures PoliciesOf(Joined(byUser, user, ip), list)
    ensures (if user in byUser then byUser[user] else NewUser(user)).value == PolicyOf(list, user)
  {
    if user !in byUser {
      PolicyOfFacts(list, user);
    }
  }

  /** Counts every active session again, in an arbitrary order, and collects the hooks
      of those whose user is disabled. */
  method Recount(start: map<string, UserState>, list: seq<Policy>, active: map<nat, Admission>)
    returns (byUser: map<string, UserState>, hooks: set<nat>)
    requires PoliciesOf(start, list)
    requires forall id | id in start :: start[id].connections == 0 && start[id].ips == map[]
    ensures PoliciesOf(byUser, list) && Recounted(byUser, EmailMap(list), active) && start.Keys <= byUser.Keys
    ensures hooks == SessionHooks(list, active)
  {
    var byEmail := EmailMap(list);
    byUser, hooks := start, {};
    var todo := active.Keys;
    ghost var part: map<nat, Admission> := map[];
    EmptyCount(byUser, byEmail);
    while todo != {}
      invariant todo <= active.Keys && part == active - todo
      invariant PoliciesOf(byUser, list) && Recounted(byUser, byEmail, part) && start.Keys <= byUser.Keys
      invariant hooks == SessionHooks(list, part)
      decreases |todo|
    {
      var i :| i in todo;
      var a := active[i];
      var user := Owner(byEmail, a.email);
      var policy := (if user in byUser then byUser[user] else NewUser(user)).value;
      CountedOneMore(byUser, list, part, i, a);
      byUser := Joined(byUser, user, a.ip);
      if policy.disabled && a.hook.Some? { hooks := hooks + {a.hook.value}; }
      PartGrows(active, todo, i);
      part, todo := part[i := a], todo - {i};
    }
    assert active - todo == active;
  }

  lemma PartGrows(whole: map<nat, Admission>, todo: set<nat>, i: nat)
    requires i in todo && i in whole
    ensures i !in whole - todo && whole - (todo - {i}) == (whole - todo)[i := whole[i]]
  {}

  lemma CountedOneMore(byUser: map<string, UserState>, list: seq<Policy>, part: map<nat, Admission>, i: nat,
                       a: Admission)
    requires PoliciesOf(byUser, list) && Recounted(byUser, EmailMap(list), part) && i !in part
    ensures var user := Owner(EmailMap(list), a.email);
      && PoliciesOf(Joined(byUser, user, a.ip), list)
      && Recounted(Joined(byUser, user, a.ip), EmailMap(list), part[i := a])
      && (if user in byUser then byUser[user] else NewUser(user)).value == PolicyFor(list, a.email)
      && SessionHooks(list, part[i := a]) ==
         SessionHooks(list, part) + (if PolicyFor(list, a.email).disabled && a.hook.Some? then {a.hook.value} else {})
  {
    var user := Owner(EmailMap(list), a.email);
    JoiningKeepsPolicies(byUser, list, user, a.ip);
    OneMoreCounted(byUser, EmailMap(list), part, i, a);
    SessionHooksGrow(list, part, i, a);
  }

  lemma SessionHooksGrow(list: seq<Policy>, part: map<nat, Admission>, i: nat, a: Admission)
    requires i !in part
    ensures SessionHooks(list, part[i := a]) ==
      SessionHooks(list, part) + (if PolicyFor(list, a.email).disabled && a.hook.Some? then {a.hook.value} else {})
  {
    forall h | h in SessionHooks(list, part) ensures h in SessionHooks(list, part[i := a]) {
      var j :| j in part && part[j].hook == Some(h) && PolicyFor(list, part[j].email).disabled;
      assert part[i := a][j] == part[j];
    }
    assert part[i := a][i] == a;
  }

  lemma SpliceHooksGrow(list: seq<Policy>, part: map<nat, Admission>, i: nat, a: Admission)
    requires i !in part
    ensures SpliceHooks(list, part[i := a]) ==
      SpliceHooks(list, part) + (if BoundedPolicy(PolicyFor(list, a.email)) && a.hook.Some? then {a.hook.value} else {})
  {
    forall h | h in SpliceHooks(list, part) ensures h in SpliceHooks(list, part[i := a]) {
      var j :| j in part && part[j].hook == Some(h) && BoundedPolicy(PolicyFor(list, part[j].email));
      assert part[i := a][j] == part[j];
    }
    assert part[i := a][i] == a;
  }

  lemma OpeningKeepsCounts(byUser: map<string, UserState>, list: seq<Policy>, active: map<nat, Admission>, user: string)
    requires PoliciesOf(byUser, list) && Recounted(byUser, EmailMap(list), active) && user !in byUser
    ensures PoliciesOf(byUser[user := NewUser(user)], list)
    ensures Recounted(byUser[user := NewUser(user)], EmailMap(list), active)
  {
    PolicyOfFacts(list, user);
    assert Sessions(active, EmailMap(list), user) == {};
    forall ip ensures TalliedAt(NewUser(user), active, EmailMap(list), user, ip) {
      assert SessionsFrom(active, EmailMap(list), user, ip) == {};
    }
  }

  /** Collects the hooks of the unbounded transfers that now fall under a policy. */
  method Revisit(start: map<string, UserState>, list: seq<Policy>, ghost active: map<nat, Admission>,
                 unbounded: map<nat, Admission>)
    returns (byUser: map<string, UserState>, hooks: set<nat>)
    requires PoliciesOf(start, list) && Recounted(start, EmailMap(list), active)
    ensures PoliciesOf(byUser, list) && Recounted(byUser, EmailMap(list), active) && start.Keys <= byUser.Keys
    ensures hooks == SpliceHooks(list, unbounded)
  {
    var byEmail := EmailMap(list);
    byUser, hooks := start, {};
    var todo := unbounded.Keys;
    ghost var part: map<nat, Admission> := map[];
    while todo != {}
      invariant todo <= unbounded.Keys && part == unbounded - todo
      invariant PoliciesOf(byUser, list) && Recounted(byUser, byEmail, active) && start.Keys <= byUser.Keys
      invariant hooks == SpliceHooks(list, part)
      decreases |todo|
    {
      var i :| i in todo;
      var a := unbounded[i];
      var user := Owner(byEmail, a.email);
      if user !in byUser {
        OpeningKeepsCounts(byUser, list, active, user);
        byUser := byUser[user := NewUser(user)];
      }
      SpliceHooksGrow(list, part, i, a);
      if BoundedPolicy(byUser[user].value) && a.hook.Some? { hooks := hooks + {a.hook.value}; }
      PartGrows(unbounded, todo, i);
      part, todo := part[i := a], todo - {i};
    }
    assert unbounded - todo == unbounded;
  }

  lemma UsersAreNamed(b: Book)
    requires Good(b)
    ensures forall id | id in b.byUser :: b.byUser[id].value.userId == id
  {
    forall id | id in b.byUser ensures b.byUser[id].value.userId == id {
      assert UserOk(b, id);
    }
  }

  /** The three passes of a policy change. */
  method Reassign(start: map<string, UserState>, list: seq<Policy>, active: map<nat, Admission>,
                  unbounded: map<nat, Admission>)
      returns (byUser: map<string, UserState>, byEmail: map<string, string>, called: set<nat>)
    requires forall id | id in start :: start[id].value.userId == id
    ensures byEmail == EmailMap(list) && PoliciesOf(byUser, list) && Recounted(byUser, byEmail, active)
    ensures start.Keys <= byUser.Keys && called == SessionHooks(list, active) + SpliceHooks(list, unbounded)
  {
    byUser, byEmail := InstallPolicies(start, list);
    var sessionHooks, spliceHooks;
    byUser, sessionHooks := Recount(byUser, list, active);
    byUser, spliceHooks := Revisit(byUser, list, active, unbounded);
    called := sessionHooks + spliceHooks;
  }

  /** After a policy change everything is in order again. */
  lemma ReassignmentIsGood(b: Book, list: seq<Policy>, b2: Book)
    requires Good(b) && Reassigned(b, list, b2) && Recounted(b2.byUser, b2.byEmail, b2.active)
    ensures Good(b2)
  {
    forall id ensures UserOk(b2, id) {}
    forall i: nat ensures SessionOk(b2, i) && SpliceOk(b2, i) {
      assert SessionOk(b, i) && SpliceOk(b, i);
    }
  }

  // ----- Runs -----

  datatype Event =
    | Admit(a: Admission) | Leave(i: nat) | Splice(a: Admission) | EndSplice(i: nat) | Change(list: seq<Policy>)

  /** What the controller may do; a refused admission or transfer at most opens the
      user's state. */
  ghost predicate Step(b: Book, e: Event, b2: Book) {
    match e
    case Admit(a) =>
      b2 == if MayEnter(UserOf(b, Owner(b.byEmail, a.email)), a.ip) then Admitted(b, a) else Opened(b, a.email)
    case Leave(i) => b2 == if i in b.active then Released(b, i) else b
    case Splice(a) =>
      b2 == if BoundedPolicy(UserOf(b, Owner(b.byEmail, a.email)).value) then Opened(b, a.email) else Spliced(b, a)
    case EndSplice(i) => b2 == b.(unbounded := b.unbounded - {i})
    case Change(list) => Reassigned(b, list, b2) && Recounted(b2.byUser, b2.byEmail, b2.active)
  }

  lemma EndingIsGood(b: Book, i: nat)
    requires Good(b)
    ensures Good(b.(unbounded := b.unbounded - {i}))
  {
    var b2 := b.(unbounded := b.unbounded - {i});
    forall j: nat ensures SessionOk(b2, j) && SpliceOk(b2, j) {
      assert SessionOk(b, j) && SpliceOk(b, j);
    }
    forall id ensures UserOk(b2, id) {
      assert UserOk(b, id);
    }
  }

  lemma StepIsGood(b: Book, e: Event, b2: Book)
    requires Good(b) && Step(b, e, b2)
    ensures Good(b2)
  {
    match e
    case Admit(a) =>
      OpeningIsGood(b, a.email);
      if MayEnter(UserOf(b, Owner(b.byEmail, a.email)), a.ip) { AdmissionIsGood(b, a); }
    case Leave(i) =>
      if i in b.active { ReleaseIsGood(b, i); }
    case Splice(a) =>
      OpeningIsGood(b, a.email);
      if !BoundedPolicy(UserOf(b, Owner(b.byEmail, a.email)).value) { SpliceIsGood(b, a); }
    case EndSplice(i) => EndingIsGood(b, i);
    case Change(list) => ReassignmentIsGood(b, list, b2);
  }

  ghost predicate Run(bs: seq<Book>, es: seq<Event>) {
    && |bs| == |es| + 1 && bs[0] == Book(map[], map[], map[], map[], 0, {}, map[])
    && forall k {:trigger StepAt(bs, es, k)} :: StepAt(bs, es, k)
  }

  ghost predicate StepAt(bs: seq<Book>, es: seq<Event>, k: int) {
    0 <= k < |es| && |bs| == |es| + 1 ==> Step(bs[k], es[k], bs[k + 1])
  }

  lemma {:induction false} RunsAreGood(bs: seq<Book>, es: seq<Event>, k: nat)
    requires Run(bs, es) && k < |bs|
    ensures Good(bs[k])
  {
    if k > 0 {
      RunsAreGood(bs, es, k - 1);
      assert StepAt(bs, es, k - 1);
      StepIsGood(bs[k - 1], es[k - 1], bs[k]);
    }
  }

  /** After any sequence of admissions, repeated releases and reassignments, a user's
      counters are the tally of the sessions it owns, and between two policy changes
      they stay within the limit or the value at the last change. */
  lemma CountersAreExact(bs: seq<Book>, es: seq<Event>, k: nat, id: string, ip: string)
    requires Run(bs, es) && k < |bs| && id in bs[k].byUser
    ensures var b, u := bs[k], bs[k].byUser[id];
      && u.connections == |Sessions(b.active, b.byEmail, id)|
      && (ip in u.ips <==> SessionsFrom(b.active, b.byEmail, id, ip) != {})
      && (ip in u.ips ==> u.ips[ip] == |SessionsFrom(b.active, b.byEmail, id, ip)| && u.ips[ip] > 0)
      && (u.value.connectionLimit > 0 ==> u.connections <= Max(u.value.connectionLimit, At(b.atApply, id).0))
      && (u.value.ipLimit > 0 ==> |u.ips| <= Max(u.value.ipLimit, At(b.atApply, id).1))
  {
    RunsAreGood(bs, es, k);
    assert UserOk(bs[k], id);
    assert TalliedAt(bs[k].byUser[id], bs[k].active, bs[k].byEmail, id, ip);
  }

  /** At every point of every run, the last policy change has called the hook of each session
      of a disabled user and of each unbounded transfer of a bounded user: nothing admitted or
      registered since then escapes it. */
  lemma PoliciesAreEnforced(bs: seq<Book>, es: seq<Event>, k: nat, i: nat)
    requires Run(bs, es) && k < |bs|
    ensures var b := bs[k];
      && (i in b.active && b.active[i].hook.Some? && UserOf(b, Owner(b.byEmail, b.active[i].email)).value.disabled ==>
            b.active[i].hook.value in b.called)
      && (i in b.unbounded && b.unbounded[i].hook.Some?
          && BoundedPolicy(UserOf(b, Owner(b.byEmail, b.unbounded[i].email)).value) ==>
            b.unbounded[i].hook.value in b.called)
  {
    RunsAreGood(bs, es, k);
    assert SessionOk(bs[k], i) && SpliceOk(bs[k], i);
  }

  // ----- Enforcement in terms of the list -----

  /** The last policy of the list that names the credential. */
  predicate LastNaming(list: seq<Policy>, k: int, email: string) {
    0 <= k < |list| && email in list[k].emails && forall j | k < j < |list| :: email !in list[j].emails
  }

  /** The last policy of the list for the user. */
  predicate LastFor(list: seq<Policy>, k: int, user: string) {
    0 <= k < |list| && list[k].userId == user && forall j | k < j < |list| :: list[j].userId != user
  }

  lemma {:induction false} AssignMaps(m: map<string, string>, emails: seq<string>, id: string, email: string)
    ensures email in emails ==> email in Assign(m, emails, id) && Assign(m, emails, id)[email] == id
    ensures email !in emails ==>
      (email in Assign(m, emails, id) <==> email in m) && (email in m ==> Assign(m, emails, id)[email] == m[email])
  {
    if emails != [] {
      var front, last := emails[..|emails| - 1], emails[|emails| - 1];
      assert emails == front + [last];
      AssignMaps(m, front, id, email);
    }
  }

  /** A credential belongs to the user of the last policy that names it; one that no policy names is
      not mapped. */
  lemma {:induction false} CredentialsAreMapped(list: seq<Policy>, k: int, email: string)
    ensures LastNaming(list, k, email) ==> email in EmailMap(list) && EmailMap(list)[email] == list[k].userId
    ensures (forall v | v in list :: email !in v.emails) ==> email !in EmailMap(list)
  {
    if list != [] {
      var front, v := list[..|list| - 1], list[|list| - 1];
      assert list == front + [v];
      AssignMaps(EmailMap(front), v.emails, v.userId, email);
      CredentialsAreMapped(front, k, email);
      if LastNaming(list, k, email) && k < |front| {
        assert list[|front|] == v;
        assert LastNaming(front, k, email);
      }
      assert v in list;
    }
  }

  lemma {:induction false} UsersGetTheirPolicy(list: seq<Policy>, k: int, user: string)
    ensures LastFor(list, k, user) ==> PolicyOf(list, user) == list[k]
    ensures (forall v | v in list :: v.userId != user) ==> PolicyOf(list, user) == Unrestricted(user)
  {
    if list != [] {
      var front, v := list[..|list| - 1], list[|list| - 1];
      assert list == front + [v] && v in list;
      UsersGetTheirPolicy(front, k, user);
      if LastFor(list, k, user) && k < |front| {
        assert list[|front|] == v;
        assert LastFor(front, k, user);
      }
    }
  }

  /** The books are those of the list. */
  ghost predicate Governed(b: Book, list: seq<Policy>) {
    b.byEmail == EmailMap(list) && PoliciesOf(b.byUser, list)
  }

  lemma StepStaysGoverned(b: Book, e: Event, b2: Book, list: seq<Policy>)
    requires Good(b) && Step(b, e, b2)
    requires if e.Change? then e.list == list else Governed(b, list)
    ensures Governed(b2, list)
  {
    if !e.Change? {
      forall id | id in b2.byUser ensures b2.byUser[id].value == UserOf(b, id).value {
        ValuesStay(b, e, b2, id);
      }
      forall id | id in b2.byUser
        ensures b2.byUser[id].value == PolicyOf(list, id) && b2.byUser[id].value.userId == id
      {
        UsersGetTheirPolicy(list, 0, id);
      }
      assert b2.byUser.Keys >= b.byUser.Keys;
    }
  }

  /** Only a policy change changes a policy. */
  lemma ValuesStay(b: Book, e: Event, b2: Book, id: string)
    requires Step(b, e, b2) && !e.Change? && id in b2.byUser
    ensures b2.byUser[id].value == UserOf(b, id).value
  {
  }

  /** The list of the last policy change among the first `k` events; none stands for no policies. */
  function ListAt(es: seq<Event>, k: nat): seq<Policy>
    requires k <= |es|
  {
    if k == 0 then [] else if es[k - 1].Change? then es[k - 1].list else ListAt(es, k - 1)
  }

  lemma {:induction false} RunsAreGoverned(bs: seq<Book>, es: seq<Event>, k: nat)
    requires Run(bs, es) && k < |bs|
    ensures Governed(bs[k], ListAt(es, k))
  {
    if k > 0 {
      RunsAreGoverned(bs, es, k - 1);
      RunsAreGood(bs, es, k - 1);
      assert StepAt(bs, es, k - 1);
      StepStaysGoverned(bs[k - 1], es[k - 1], bs[k], ListAt(es, k));
    }
  }

  /** The policy of a list for a credential: the last one for the user of the last one that names it,
      and none for a credential, or a user, that the list does not know. */
  ghost predicate PolicyIs(list: seq<Policy>, email: string, p: Policy) {
    exists user ::
      && UserIs(list, email, user)
      && ((exists g :: LastFor(list, g, user) && p == list[g])
          || ((forall v | v in list :: v.userId != user) && p == Unrestricted(user)))
  }

  ghost predicate UserIs(list: seq<Policy>, email: string, user: string) {
    || (exists k :: LastNaming(list, k, email) && user == if list[k].userId != "" then list[k].userId else email)
    || ((forall v | v in list :: email !in v.emails) && user == email)
  }

  lemma ListDecides(b: Book, list: seq<Policy>, email: string, p: Policy)
    requires Good(b) && Governed(b, list) && PolicyIs(list, email, p)
    ensures UserOf(b, Owner(b.byEmail, email)).value == p
  {
    var user :| UserIs(list, email, user)
      && ((exists g :: LastFor(list, g, user) && p == list[g])
          || ((forall v | v in list :: v.userId != user) && p == Unrestricted(user)));
    CredentialsAreMapped(list, 0, email);
    if k :| LastNaming(list, k, email) && user == if list[k].userId != "" then list[k].userId else email {
      CredentialsAreMapped(list, k, email);
    }
    assert Owner(b.byEmail, email) == user;
    UsersGetTheirPolicy(list, 0, user);
    if g :| LastFor(list, g, user) && p == list[g] {
      UsersGetTheirPolicy(list, g, user);
      assert list[g] in list;
    }
  }

  /** At every point of every run, with `p` the policy that the last list has for a credential: if it
      disables the user, the hooks of all sessions of the credential have been called; if it bounds
      the user in any way, so have those of its unbounded transfers. */
  lemma ListsAreEnforced(bs: seq<Book>, es: seq<Event>, k: nat, i: nat, p: Policy)
    requires Run(bs, es) && k < |bs|
    ensures i in bs[k].active && bs[k].active[i].hook.Some? && p.disabled
            && PolicyIs(ListAt(es, k), bs[k].active[i].email, p) ==>
      bs[k].active[i].hook.value in bs[k].called
    ensures i in bs[k].unbounded && bs[k].unbounded[i].hook.Some?
            && (p.disabled || p.bytesPerSecond > 0 || p.connectionLimit > 0 || p.ipLimit > 0)
            && PolicyIs(ListAt(es, k), bs[k].unbounded[i].email, p) ==>
      bs[k].unbounded[i].hook.value in bs[k].called
  {
    RunsAreGood(bs, es, k);
    RunsAreGoverned(bs, es, k);
    PoliciesAreEnforced(bs, es, k, i);
    if i in bs[k].active && PolicyIs(ListAt(es, k), bs[k].active[i].email, p) {
      ListDecides(bs[k], ListAt(es, k), bs[k].active[i].email, p);
    }
    if i in bs[k].unbounded && PolicyIs(ListAt(es, k), bs[k].unbounded[i].email, p) {
      ListDecides(bs[k], ListAt(es, k), bs[k].unbounded[i].email, p);
    }
  }

  ghost function AddressesOf(active: map<nat, Admission>, byEmail: map<string, string>, user: string): set<string> {
    set i | i in active && Owner(byEmail, active[i].email) == user :: active[i].ip
  }

  /** At every point of every run a session is admitted iff the policy that the last list has for its
      credential does not disable the user, and the user's sessions are below the connection limit,
      if there is one, and from fewer addresses than allowed, or already from this one. */
  lemma AdmissionIff(bs: seq<Book>, es: seq<Event>, k: nat, a: Admission, p: Policy)
    requires Run(bs, es) && k < |es| && es[k] == Admit(a) && PolicyIs(ListAt(es, k), a.email, p)
    ensures var b, user := bs[k], Owner(bs[k].byEmail, a.email);
      bs[k + 1].active == b.active[b.sequence + 1 := a] && bs[k + 1].active != b.active <==>
        && !p.disabled
        && (p.connectionLimit > 0 ==> |Sessions(b.active, b.byEmail, user)| < p.connectionLimit)
        && (p.ipLimit > 0 ==>
              || a.ip in AddressesOf(b.active, b.byEmail, user)
              || |AddressesOf(b.active, b.byEmail, user)| < p.ipLimit)
  {
    var b, user := bs[k], Owner(bs[k].byEmail, a.email);
    RunsAreGood(bs, es, k);
    RunsAreGoverned(bs, es, k);
    ListDecides(b, ListAt(es, k), a.email, p);
    assert StepAt(bs, es, k);
    CountsAreTallies(b, user, a.ip);
    assert SessionOk(b, b.sequence + 1);
  }

  /** At every point of every run an unbounded transfer is registered iff that policy does not bound the
      user in any way. */
  lemma SplicingIff(bs: seq<Book>, es: seq<Event>, k: nat, a: Admission, p: Policy)
    requires Run(bs, es) && k < |es| && es[k] == Splice(a) && PolicyIs(ListAt(es, k), a.email, p)
    ensures var b := bs[k];
      bs[k + 1].unbounded == b.unbounded[b.sequence + 1 := a] && bs[k + 1].unbounded != b.unbounded <==>
        !p.disabled && p.bytesPerSecond <= 0 && p.connectionLimit <= 0 && p.ipLimit <= 0
  {
    RunsAreGood(bs, es, k);
    RunsAreGoverned(bs, es, k);
    ListDecides(bs[k], ListAt(es, k), a.email, p);
    assert StepAt(bs, es, k);
    assert SpliceOk(bs[k], bs[k].sequence + 1);
  }

  lemma AddressIffSession(active: map<nat, Admission>, byEmail: map<string, string>, user: string, ip: string)
    ensures ip in AddressesOf(active, byEmail, user) <==> SessionsFrom(active, byEmail, user, ip) != {}
  {
    if ip in AddressesOf(active, byEmail, user) {
      var i :| i in active && Owner(byEmail, active[i].email) == user && active[i].ip == ip;
      assert i in SessionsFrom(active, byEmail, user, ip);
    }
    if i :| i in SessionsFrom(active, byEmail, user, ip) {
      assert active[i].ip in AddressesOf(active, byEmail, user);
    }
  }

  lemma UnknownHasNoSessions(b: Book, user: string)
    requires Good(b) && user !in b.byUser
    ensures Sessions(b.active, b.byEmail, user) == {} && AddressesOf(b.active, b.byEmail, user) == {}
  {
    forall i | i in b.active ensures Owner(b.byEmail, b.active[i].email) != user {
      assert SessionOk(b, i);
    }
  }

  /** The counters of a user, of one that is not yet known as well, in terms of the sessions. */
  lemma CountsAreTallies(b: Book, user: string, ip: string)
    requires Good(b)
    ensures var u := UserOf(b, user);
      && u.connections == |Sessions(b.active, b.byEmail, user)|
      && u.ips.Keys == AddressesOf(b.active, b.byEmail, user)
      && (Count(u, ip) == 0 <==> ip !in u.ips)
  {
    if user in b.byUser {
      assert UserOk(b, user);
      var u := b.byUser[user];
      forall x ensures x in u.ips <==> x in AddressesOf(b.active, b.byEmail, user) {
        assert TalliedAt(u, b.active, b.byEmail, user, x);
        AddressIffSession(b.active, b.byEmail, user, x);
      }
      assert TalliedAt(u, b.active, b.byEmail, user, ip);
    } else {
      UnknownHasNoSessions(b, user);
    }
  }

  class Controller {
    var byUser: map<string, UserState>
    var byEmail: map<string, string>
    var active: map<nat, Admission>
    var unbounded: map<nat, Admission>
    var sequence: nat
    var called: set<nat>
    ghost var atApply: map<string, (int, int)>

    ghost function Value(): Book
      reads this
    {
      Book(byUser, byEmail, active, unbounded, sequence, called, atApply)
    }

    constructor ()
      ensures Good(Value()) && Value() == Book(map[], map[], map[], map[], 0, {}, map[])
    {
      byUser, byEmail, active, unbounded, sequence, called, atApply := map[], map[], map[], map[], 0, {}, map[];
    }

    /** The state that answers for a credential, created on first use. */
    method State(email: string) returns (s: UserState)
      modifies this`byUser
      ensures Value() == Opened(old(Value()), email) && s == UserOf(old(Value()), Owner(byEmail, email))
    {
      var user := Owner(byEmail, email);
      if user !in byUser { byUser := byUser[user := NewUser(user)]; }
      s := byUser[user];
      assert byUser == byUser[user := s];
    }

    method AdmitSession(email: string, ip: string, hook: Option<nat>) returns (r: Option<nat>)
      requires Good(Value())
      modifies this
      ensures Good(Value())
      ensures r.Some? <==> MayEnter(UserOf(old(Value()), Owner(old(byEmail), email)), ip)
      ensures r.Some? ==> Value() == Admitted(old(Value()), Admission(email, ip, hook)) && r.value == sequence
      ensures r.None? ==> Value() == Opened(old(Value()), email)
    {
      ghost var b := Value();
      OpeningIsGood(b, email);
      var s := State(email);
      if s.value.disabled { return None; }
      if s.value.connectionLimit > 0 && s.connections >= s.value.connectionLimit { return None; }
      if s.value.ipLimit > 0 && Count(s, ip) == 0 && |s.ips| >= s.value.ipLimit { return None; }
      var id := Record(Admission(email, ip, hook), s, b);
      r := Some(id);
    }

    method Record(a: Admission, s: UserState, ghost b: Book) returns (id: nat)
      requires Good(b) && Value() == Opened(b, a.email)
      requires s == UserOf(b, Owner(byEmail, a.email)) && MayEnter(s, a.ip)
      modifies this
      ensures Value() == Admitted(b, a) && Good(Value()) && id == sequence
    {
      AdmissionIsGood(b, a);
      byUser := byUser[Owner(byEmail, a.email) := Entered(s, a.ip)];
      sequence := sequence + 1;
      active := active[sequence := a];
      id := sequence;
      assert byUser == b.byUser[Owner(byEmail, a.email) := Entered(s, a.ip)];
    }

    /** The release closure: its first call does the work, later calls do nothing. */
    method Release(id: nat)
      requires Good(Value())
      modifies this
      ensures Good(Value())
      ensures Value() == if id in old(active) then Released(old(Value()), id) else old(Value())
    {
      if id !in active { return; }
      var a := active[id];
      ghost var b := Value();
      ReleaseIsGood(b, id);
      var s := State(a.email);
      active := active - {id};
      byUser := byUser[Owner(byEmail, a.email) := Left(s, a.ip)];
      assert byUser == b.byUser[Owner(byEmail, a.email) := Left(s, a.ip)];
      assert Value() == Released(b, id);
    }

    method BeginUnboundedSplice(email: string, hook: Option<nat>, cancelled: bool) returns (r: Option<nat>)
      requires Good(Value())
      modifies this
      ensures Good(Value())
      ensures r.Some? <==> !cancelled && !BoundedPolicy(UserOf(old(Value()), Owner(old(byEmail), email)).value)
      ensures r.Some? ==> Value() == Spliced(old(Value()), Admission(email, "", hook)) && r.value == sequence
      ensures r.None? ==> Value() == if cancelled then old(Value()) else Opened(old(Value()), email)
    {
      if cancelled { return None; }
      ghost var b := Value();
      OpeningIsGood(b, email);
      var s := State(email);
      if BoundedPolicy(s.value) { return None; }
      SpliceIsGood(b, Admission(email, "", hook));
      sequence := sequence + 1;
      unbounded := unbounded[sequence := Admission(email, "", hook)];
      r := Some(sequence);
    }

    method EndUnboundedSplice(id: nat)
      requires Good(Value())
      modifies this
      ensures Good(Value()) && Value() == old(Value()).(unbounded := old(unbounded) - {id})
    {
      EndingIsGood(Value(), id);
      unbounded := unbounded - {id};
    }

    /** A new list of policies: credentials move between users while their sessions run. */
    method Apply(list: seq<Policy>)
      requires Good(Value())
      modifies this
      ensures Good(Value()) && old(byUser).Keys <= byUser.Keys
      ensures Step(old(Value()), Change(list), Value())
    {
      ghost var b := Value();
      UsersAreNamed(b);
      byUser, byEmail, called := Reassign(byUser, list, active, unbounded);
      atApply := Counts(byUser);
      ReassignmentIsGood(b, list, Value());
    }
  }
}
