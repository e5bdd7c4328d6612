/** The allowlist as a journaled transaction over three stores: the kernel table,
    firewall.json and firewall-pending.json, with the in-memory ready gate and the
    running core beside them. Every store access may fail; every intermediate device
    state is recorded, so that a crash can be taken at any of them. */
module FirewallJournal {
  import opened Common
  import opened FirewallRules

  // ----- Persistent and kernel state -----

  datatype Target = Target(name: string, protocol: Proto, port: nat, listen: Family, kind: string)

  datatype State = State(owner: string, revision: nat, rules: seq<Rule>, bindings: seq<Target>)

  /** The managed table as listed; `valid` is false when it holds anything foreign. */
  datatype Table = Table(owner: string, atoms: seq<Atom>, valid: bool)

  /** What survives the process. `committed` and `pending` are what a read returns
      now; the `may` sets hold every content that a power loss could leave behind,
      given the directory operations not yet synced. `honest` records that nft has
      so far either made a requested change or left the table alone. */
  datatype Device = Device(
    committed: Option<State>, pending: Option<State>,
    mayCommitted: set<Option<State>>, mayPending: set<Option<State>>,
    table: Option<Table>, honest: bool)

  /** The pending file wins over the committed one. */
  function Effective(d: Device): Option<State> {
    if d.pending.Some? then d.pending else d.committed
  }

  function Compile(s: Option<State>): Option<Table> {
    if s.None? || s.value.rules == [] then None else Some(Table(s.value.owner, Atoms(s.value.rules), true))
  }

  predicate Matches(t: Option<Table>, s: Option<State>) {
    if s.None? || s.value.rules == [] then t.None?
    else t.Some? && t.value.valid && t.value.owner == s.value.owner && t.value.atoms == Atoms(s.value.rules)
  }

  /** The ownership proof demanded before a table is replaced. */
  predicate Owned(t: Option<Table>, s: Option<State>) {
    t.None? || (s.Some? && t.value.owner == s.value.owner)
  }

  /** `e` could be the effective policy after a power loss now. */
  predicate MayRecover(d: Device, e: Option<State>) {
    (e.Some? && e in d.mayPending) || (None in d.mayPending && e in d.mayCommitted)
  }

  /** What every device state of every run satisfies. */
  predicate Sound(d: Device) {
    && d.committed in d.mayCommitted && d.pending in d.mayPending
    && (Effective(d).None? ==> d.table.None?)
    && (d.honest ==> Owned(d.table, Effective(d)))
  }

  /** A directory sync has made the current files the only ones that can survive. */
  predicate Durable(d: Device) {
    d.mayCommitted == {d.committed} && d.mayPending == {d.pending}
  }

  predicate PowerLoss(d: Device, after: Device) {
    && after.committed in d.mayCommitted && after.pending in d.mayPending
    && Durable(after) && after.table.None? && after.honest
  }

  /** What is in the files now, and what a power loss could leave in them. */
  function Files(d: Device): set<Option<State>> {
    {d.committed, d.pending}
  }

  function Contents(d: Device): set<Option<State>> {
    d.mayCommitted + d.mayPending
  }

  /** A device state `d` met while moving from `d0` towards `next` (or towards nothing
      new): whatever ends the process there, restart finds the old policy or `next`, and no
      file holds anything else. */
  ghost predicate Safe(d0: Device, next: Option<State>, d: Device) {
    && Sound(d)
    && (Effective(d) == Effective(d0) || (next.Some? && Effective(d) == next))
    && (forall e :: MayRecover(d, e) ==> MayRecover(d0, e) || (next.Some? && e == next))
    && Files(d) <= Files(d0) + {None, next} && Contents(d) <= Contents(d0) + {None, next}
  }

  ghost predicate AllSafe(d0: Device, next: Option<State>, trail: Trail<Device>) {
    Safe(d0, next, trail.d) && (trail.Then? ==> AllSafe(d0, next, trail.before))
  }

  lemma {:induction false} VisitedIsSafe(d0: Device, next: Option<State>, trail: Trail<Device>, d: Device)
    requires AllSafe(d0, next, trail) && Visits(trail, d)
    ensures Safe(d0, next, d)
  {
    if trail.d != d {
      VisitedIsSafe(d0, next, trail.before, d);
    }
  }

  /** Listeners may only be up over a verified table and a settled journal. */
  predicate FailClosed(d: Device, ready: bool, core: bool) {
    ready || core ==> d.pending.None? && Matches(d.table, d.committed)
  }

  // ----- What each operation promises -----

  datatype World = World(dev: Device, ready: bool, core: bool)

  /** An operation that introduces no policy: restore, start, stop, status, a change
      of the management port. */
  ghost predicate QuietStep(w: World, w2: World, trail: Trail<Device>) {
    && AllSafe(w.dev, None, trail) && w2.dev == trail.d
    && FailClosed(w2.dev, w2.ready, w2.core)
  }

  /** The policy is installed, verified and the only one that can survive. */
  predicate Settled(d: Device, req: Request) {
    && d.committed.Some? && d.committed.value.revision == req.revision && d.committed.value.rules == req.rules
    && d.pending.None? && Durable(d) && Matches(d.table, d.committed)
  }

  function PolicyOf(s: State): Request {
    Request(s.revision, s.rules)
  }

  /** An apply of `req`, reporting `ok`; `next` is what it came to persist, if it came so far. */
  ghost predicate ApplyStep(w: World, w2: World, trail: Trail<Device>, req: Request, next: Option<State>, ok: bool) {
    && (next.Some? ==> PolicyOf(next.value) == req)
    && AllSafe(w.dev, next, trail) && w2.dev == trail.d
    && (!Admissible(Effective(w.dev), req) ==> !ok && w2 == w && trail == At(w.dev))
    && (ok ==> Settled(w2.dev, req))
    && (!ok && (w2.ready || w2.core) ==> Effective(w2.dev) == Effective(w.dev))
    && FailClosed(w2.dev, w2.ready, w2.core)
  }

  // ----- Listener bindings -----

  /** A core inbound. `port` is absent unless it is a single number; `listen` is
      present for a plain wildcard address. */
  datatype Inbound = Inbound(tag: string, listen: Option<Family>, port: Option<int>, protocol: string, network: string)

  function PortUses(inbounds: seq<Inbound>, port: int): nat {
    if inbounds == [] then 0
    else (if inbounds[0].port == Some(port) then 1 else 0) + PortUses(inbounds[1..], port)
  }

  /** Exactly the place `i` of the list uses the port. */
  predicate UsedOnlyAt(inbounds: seq<Inbound>, port: int, i: int) {
    0 <= i < |inbounds| && forall j | 0 <= j < |inbounds| :: inbounds[j].port == Some(port) <==> j == i
  }

  /** A port is used once iff exactly one inbound carries it. */
  lemma {:induction false} PortIsUsedOnceIff(inbounds: seq<Inbound>, port: int)
    ensures PortUses(inbounds, port) == 0 <==> forall j | 0 <= j < |inbounds| :: inbounds[j].port != Some(port)
    ensures PortUses(inbounds, port) == 1 <==> exists i :: UsedOnlyAt(inbounds, port, i)
  {
    if inbounds != [] {
      var rest := inbounds[1..];
      PortIsUsedOnceIff(rest, port);
      assert forall j | 0 < j < |inbounds| :: inbounds[j] == rest[j - 1];
      assert forall j | 0 <= j < |rest| :: rest[j] == inbounds[j + 1];
      if inbounds[0].port == Some(port) {
        if PortUses(rest, port) == 0 { assert UsedOnlyAt(inbounds, port, 0); }
      } else {
        if i :| UsedOnlyAt(rest, port, i) { assert UsedOnlyAt(inbounds, port, i + 1); }
        if i :| UsedOnlyAt(inbounds, port, i) { assert UsedOnlyAt(rest, port, i - 1); }
      }
    }
  }

  predicate Eligible(in_: Inbound, all: seq<Inbound>, excluded: set<int>) {
    && in_.port.Some? && 1 <= in_.port.value <= 65535 && PortUses(all, in_.port.value) == 1
    && in_.port.value !in excluded
    && in_.protocol in {"vless", "vmess", "trojan"} && in_.network in {"", "tcp", "raw"}
    && in_.listen.Some? && in_.tag != ""
  }

  /** The inbound at the place `k` may carry a rule iff it is the only one on its port, a number off the
      excluded ones, and a named TCP listener of one of three protocols on a wildcard address. */
  lemma EligibleIff(all: seq<Inbound>, k: nat, excluded: set<int>)
    requires k < |all|
    ensures Eligible(all[k], all, excluded) <==>
      && all[k].port.Some? && 0 < all[k].port.value < 65536 && all[k].port.value !in excluded
      && (forall j | 0 <= j < |all| && j != k :: all[j].port != all[k].port)
      && (all[k].protocol == "vless" || all[k].protocol == "vmess" || all[k].protocol == "trojan")
      && (all[k].network == "" || all[k].network == "tcp" || all[k].network == "raw")
      && all[k].listen.Some? && all[k].tag != ""
  {
    if all[k].port.Some? {
      var port := all[k].port.value;
      PortIsUsedOnceIff(all, port);
      if i :| UsedOnlyAt(all, port, i) { assert i == k; }
      if forall j | 0 <= j < |all| && j != k :: all[j].port != all[k].port { assert UsedOnlyAt(all, port, k); }
    }
  }

  function FindTarget(inbounds: seq<Inbound>, all: seq<Inbound>, excluded: set<int>, rule: Rule): Option<Target> {
    if inbounds == [] then None
    else
      var i := inbounds[0];
      if Eligible(i, all, excluded) && rule.protocol.Tcp? && i.port.value == rule.port then
        Some(Target(i.tag, Tcp, i.port.value, i.listen.value, i.protocol))
      else FindTarget(inbounds[1..], all, excluded, rule)
  }

  /** One binding per rule, or nothing when some rule has no eligible listener. */
  function Bind(rules: seq<Rule>, inbounds: seq<Inbound>, excluded: set<int>): Option<seq<Target>> {
    if rules == [] then Some([])
    else
      var first := FindTarget(inbounds, inbounds, excluded, rules[0]);
      var rest := Bind(rules[1..], inbounds, excluded);
      if first.None? || rest.None? then None else Some([first.value] + rest.value)
  }

  /** The listener carries the port of the rule, and the target describes it. */
  predicate Serves(i: Inbound, all: seq<Inbound>, excluded: set<int>, rule: Rule, target: Target) {
    && Eligible(i, all, excluded) && rule.protocol == Tcp == target.protocol
    && i.port.value == rule.port == target.port
    && i.tag == target.name && i.listen == Some(target.listen) && i.protocol == target.kind
  }

  ghost predicate Served(inbounds: seq<Inbound>, all: seq<Inbound>, excluded: set<int>, rule: Rule, target: Target) {
    exists i :: i in inbounds && Serves(i, all, excluded, rule, target)
  }

  ghost predicate HasListener(inbounds: seq<Inbound>, all: seq<Inbound>, excluded: set<int>, rule: Rule) {
    exists x :: Served(inbounds, all, excluded, rule, x)
  }

  /** A rule is bound iff an eligible listener carries its port, and then to that listener. */
  lemma {:induction false} TargetIsServing(inbounds: seq<Inbound>, all: seq<Inbound>, excluded: set<int>, rule: Rule)
    ensures FindTarget(inbounds, all, excluded, rule).Some? <==> HasListener(inbounds, all, excluded, rule)
    ensures FindTarget(inbounds, all, excluded, rule).Some? ==>
      Served(inbounds, all, excluded, rule, FindTarget(inbounds, all, excluded, rule).value)
  {
    if inbounds != [] {
      var head, rest := inbounds[0], inbounds[1..];
      assert inbounds == [head] + rest;
      TargetIsServing(rest, all, excluded, rule);
      forall x ensures Served(inbounds, all, excluded, rule, x) <==>
                       Serves(head, all, excluded, rule, x) || Served(rest, all, excluded, rule, x) {}
      if Eligible(head, all, excluded) && rule.protocol.Tcp? && head.port.value == rule.port {
        var x := Target(head.tag, Tcp, head.port.value, head.listen.value, head.protocol);
        assert Serves(head, all, excluded, rule, x);
      }
    }
  }

  predicate Avoids(rules: seq<Rule>, ports: set<int>) {
    forall r | r in rules :: r.port !in ports
  }

  /** Rules are bound iff each has an eligible listener; there is one binding for each, in
      order, and none of them is on an excluded port. */
  lemma {:induction false} BindingsServe(rules: seq<Rule>, inbounds: seq<Inbound>, excluded: set<int>)
    ensures var b := Bind(rules, inbounds, excluded);
      && (b.Some? <==> forall r | r in rules :: HasListener(inbounds, inbounds, excluded, r))
      && (b.Some? ==> |b.value| == |rules| && Avoids(rules, excluded))
      && (b.Some? ==> forall k | 0 <= k < |rules| :: Served(inbounds, inbounds, excluded, rules[k], b.value[k]))
  {
    if rules != [] {
      assert rules == [rules[0]] + rules[1..];
      TargetIsServing(inbounds, inbounds, excluded, rules[0]);
      BindingsServe(rules[1..], inbounds, excluded);
      forall r ensures r in rules <==> r == rules[0] || r in rules[1..] {}
    }
  }

  /** A binding may be kept as it was; a new one needs a running core. */
  predicate Retains(bindings: seq<Target>, prior: seq<Target>, core: bool) {
    forall b | b in bindings :: BindingRetained(b, prior, core)
  }

  predicate BindingRetained(b: Target, prior: seq<Target>, core: bool) {
    if prior == [] then core
    else if prior[0].protocol == b.protocol && prior[0].port == b.port then prior[0] == b
    else BindingRetained(b, prior[1..], core)
  }

  predicate SamePlace(a: Target, b: Target) {
    a.protocol == b.protocol && a.port == b.port
  }

  /** The first of the earlier bindings on the same port is the place `i`. */
  predicate FirstAt(b: Target, prior: seq<Target>, i: int) {
    0 <= i < |prior| && SamePlace(prior[i], b) && forall j | 0 <= j < i :: !SamePlace(prior[j], b)
  }

  /** A binding is retained iff the first earlier one on its port is the same binding, or there is
      none on its port and the core runs. */
  lemma {:induction false} BindingIsRetainedIff(b: Target, prior: seq<Target>, core: bool)
    ensures BindingRetained(b, prior, core) <==>
      (exists i :: FirstAt(b, prior, i) && prior[i] == b) || ((forall t | t in prior :: !SamePlace(t, b)) && core)
  {
    if prior != [] {
      var rest := prior[1..];
      assert prior == [prior[0]] + rest;
      if SamePlace(prior[0], b) {
        assert FirstAt(b, prior, 0) && prior[0] in prior;
      } else {
        BindingIsRetainedIff(b, rest, core);
        if i :| FirstAt(b, rest, i) && rest[i] == b { FirstShifts(b, prior, i + 1); }
        if i :| FirstAt(b, prior, i) && prior[i] == b { FirstShifts(b, prior, i); }
      }
    }
  }

  lemma FirstShifts(b: Target, prior: seq<Target>, i: int)
    requires prior != [] && !SamePlace(prior[0], b)
    ensures FirstAt(b, prior, i) <==> FirstAt(b, prior[1..], i - 1)
    ensures FirstAt(b, prior, i) ==> prior[i] == prior[1..][i - 1]
  {
    var rest := prior[1..];
    assert forall j | 0 <= j < |rest| :: rest[j] == prior[j + 1];
    assert forall j | 0 < j < |prior| :: prior[j] == rest[j - 1];
  }

  /** Revisions only grow, and one revision names one rule list. */
  predicate Admissible(prior: Option<State>, req: Request) {
    prior.Some? ==>
      && req.revision >= prior.value.revision
      && (req.revision == prior.value.revision ==> req.rules == prior.value.rules)
  }

  /** The request may take the place of the policy: there is none, or it is newer, or it is the same. */
  predicate Replaces(req: Request, prior: Option<State>) {
    prior.None? || req.revision > prior.value.revision || PolicyOf(prior.value) == req
  }

  /** The owner of a table: 32 bytes in hexadecimal. */
  predicate IsToken(s: string) {
    |s| == 64 && forall c | c in s :: '0' <= c <= '9' || 'a' <= c <= 'f' || 'A' <= c <= 'F'
  }

  /** A state that is read back from its file. */
  ghost predicate WellFormed(le: (Prefix, Prefix) -> bool, s: State) {
    IsToken(s.owner) && ReadsBack(le, PolicyOf(s)) && |s.bindings| == |s.rules|
  }

  predicate Spares(s: Option<State>, ports: set<int>) {
    s.Some? ==> Avoids(s.value.rules, ports)
  }

  /** No rule in a file covers one of the ports. */
  predicate Clear(d: Device, ports: set<int>) {
    Spares(d.committed, ports) && Spares(d.pending, ports)
  }

  lemma StaysClear(d0: Device, next: Option<State>, d: Device, ports: set<int>)
    requires Safe(d0, next, d) && Clear(d0, ports)
    requires Spares(next, ports)
    ensures Clear(d, ports)
  {
    assert d.committed in Files(d) && d.pending in Files(d);
  }

  // ----- The manager -----

  datatype Saved = Saved | WriteFailed | SyncFailed

  /** How one nft command may end. */
  datatype Outcome = Applied | FailedAfterCommit | FailedBefore | Garbled(t: Option<Table>, claimed: bool)

  /** The steps of an apply that may be chosen to fail while everything else works. */
  datatype Stage = JournalWrite | JournalSync | Batch | Verification | CommitWrite | CommitSync | RemovalSync

  /** Only the batch, its verification or the write of `firewall.json` may fail: an apply answers
      these failures by putting the previous policy back. */
  predicate OnlyUndone(shaky: set<Stage>) {
    JournalWrite !in shaky && JournalSync !in shaky && CommitSync !in shaky && RemovalSync !in shaky
  }

  /** Only the journal or a sync may fail: nothing can then be promised about the files, so that the
      listeners are closed. */
  predicate OnlyClosing(shaky: set<Stage>) {
    Batch !in shaky && Verification !in shaky && CommitWrite !in shaky
  }

  type Token = s: string | IsToken(s) witness seq(64, _ => '0')

  /** What a process does with its allowlist. */
  datatype Operation =
    | ApplyRequest(raw: RawRequest, token: Token, shaky: set<Stage>)
    | RestoreGate
    | Start
    | Stop
    | AskStatus
    | MoveManagement(port: int)

  class Manager {
    var committed: Option<State>
    var pending: Option<State>
    var table: Option<Table>
    var ready: bool
    var core: bool
    var management: int
    var reserved: set<int>
    var inbounds: seq<Inbound>
    const healthy: bool
    const le: (Prefix, Prefix) -> bool   // the order of the prefixes of a rule, by their texts
    ghost var mayCommitted: set<Option<State>>
    ghost var mayPending: set<Option<State>>
    ghost var honest: bool
    ghost var trail: Trail<Device>

    /** A process that finds the given stores. */
    constructor (dev: Device, management: int, inbounds: seq<Inbound>, healthy: bool,
                 le: (Prefix, Prefix) -> bool)
      requires Sound(dev)
      ensures Valid() && Now() == World(dev, false, false) && reserved == {}
      ensures this.management == management && this.inbounds == inbounds && this.healthy == healthy && this.le == le
    {
      committed, pending, table := dev.committed, dev.pending, dev.table;
      mayCommitted, mayPending, honest := dev.mayCommitted, dev.mayPending, dev.honest;
      ready, core, reserved := false, false, {};
      this.management, this.inbounds, this.healthy, this.le := management, inbounds, healthy, le;
      trail := At(dev);
    }

    ghost function Dev(): Device
      reads this`committed, this`pending, this`mayCommitted, this`mayPending, this`table, this`honest
    {
      Device(committed, pending, mayCommitted, mayPending, table, honest)
    }

    function Excluded(): set<int>
      reads this`management, this`reserved
    {
      {22, management} + reserved
    }

    /** No persisted rule covers a management port. */
    ghost predicate PortsClear()
      reads this
    {
      Clear(Dev(), Excluded())
    }

    /** A running core serves no port that is reserved for management. */
    ghost predicate Valid()
      reads this
    {
      Sound(Dev()) && FailClosed(Dev(), ready, core) && (core ==> PortsClear())
    }

    /** The file system and nft work, and the state can be read back. */
    ghost predicate Sane(s: Option<State>) {
      healthy && (s.Some? ==> WellFormed(le, s.value))
    }

    /** In the middle of an operation that began in `d0` and may introduce `next`. */
    ghost predicate Within(d0: Device, next: Option<State>)
      reads this
    {
      Sound(d0) && AllSafe(d0, next, trail) && trail.d == Dev()
    }

    /** Reading a file decodes its rules again and refuses what is not canonical. */
    method ReadFile(file: Option<State>) returns (ok: bool, s: Option<State>)
      ensures ok ==> s == file && (s.Some? ==> WellFormed(le, s.value))
      ensures !ok ==> s.None?
      ensures Sane(file) ==> ok
    {
      ok := Attempt(healthy);
      if ok && file.Some? {
        var req := DecodeFirewall(le, Resubmit(PolicyOf(file.value)));
        ok := && IsToken(file.value.owner) && req.Ok? && req.value.rules == file.value.rules
              && |file.value.bindings| == |file.value.rules|;
      }
      s := if ok then file else None;
    }

    method ReadState() returns (ok: bool, s: Option<State>)
      ensures ok ==> s == Effective(Dev()) && (s.Some? ==> WellFormed(le, s.value))
      ensures !ok ==> s.None?
      ensures Sane(Effective(Dev())) ==> ok
    {
      ok, s := ReadFile(pending);
      if !ok || s.Some? { return; }
      ok, s := ReadFile(committed);
    }

    method Observe(shaky: bool) returns (ok: bool, seen: Option<Table>)
      ensures ok ==> seen == table
      ensures healthy && !shaky ==> ok
    {
      ok := Attempt(healthy && !shaky);
      seen := if ok then table else None;
    }

    method SyncDirectory(ghost d0: Device, ghost next: Option<State>, shaky: bool) returns (ok: bool)
      requires Within(d0, next)
      modifies this`mayCommitted, this`mayPending, this`trail
      ensures Within(d0, next)
      ensures ok ==> Durable(Dev())
      ensures !ok ==> Dev() == old(Dev())
      ensures healthy && !shaky ==> ok
    {
      ok := Attempt(healthy && !shaky);
      if ok {
        mayCommitted, mayPending := {committed}, {pending};
        trail := Then(Dev(), trail);
      }
    }

    /** Replace firewall.json, then sync the directory. */
    method SaveCommitted(s: State, ghost d0: Device, ghost next: Option<State>, shaky: set<Stage>) returns (r: Saved)
      requires Within(d0, next)
      requires Some(s) == Effective(d0) || Some(s) == next
      requires honest && pending.None? ==> Owned(table, Some(s))
      modifies this`committed, this`mayCommitted, this`mayPending, this`trail
      ensures Within(d0, next)
      ensures r.WriteFailed? ==> Dev() == old(Dev())
      ensures !r.WriteFailed? ==> committed == Some(s)
      ensures r.Saved? ==> Durable(Dev())
      ensures healthy && CommitWrite !in shaky && CommitSync !in shaky ==> r.Saved?
      ensures healthy && r.WriteFailed? ==> CommitWrite in shaky
      ensures healthy && r.SyncFailed? ==> CommitSync in shaky
    {
      var ok := Attempt(healthy && CommitWrite !in shaky);
      if !ok { return WriteFailed; }
      committed := Some(s);
      mayCommitted := mayCommitted + {committed};
      trail := Then(Dev(), trail);
      ok := SyncDirectory(d0, next, CommitSync in shaky);
      r := if ok then Saved else SyncFailed;
    }

    /** Replace firewall-pending.json, then sync the directory. */
    method SavePending(s: State, ghost d0: Device, shaky: set<Stage>) returns (r: Saved)
      requires Within(d0, Some(s)) && (honest ==> Owned(table, Some(s)))
      modifies this`pending, this`mayCommitted, this`mayPending, this`trail
      ensures Within(d0, Some(s))
      ensures r.WriteFailed? ==> Dev() == old(Dev())
      ensures !r.WriteFailed? ==> pending == Some(s)
      ensures r.Saved? ==> Durable(Dev())
      ensures healthy && JournalWrite !in shaky && JournalSync !in shaky ==> r.Saved?
    {
      var ok := Attempt(healthy && JournalWrite !in shaky);
      if !ok { return WriteFailed; }
      pending := Some(s);
      mayPending := mayPending + {pending};
      trail := Then(Dev(), trail);
      ok := SyncDirectory(d0, Some(s), JournalSync in shaky);
      r := if ok then Saved else SyncFailed;
    }

    /** Remove the journal; when that cannot be made durable, put it back. */
    method RemoveJournal(ghost d0: Device, ghost next: Option<State>, shaky: bool) returns (ok: bool)
      requires Within(d0, next) && mayCommitted == {committed}
      requires committed == Effective(d0) || (next.Some? && committed == next)
      requires committed.None? ==> table.None?
      requires honest ==> Owned(table, committed)
      modifies this`pending, this`mayCommitted, this`mayPending, this`trail
      ensures Within(d0, next)
      ensures ok ==> pending.None? && (old(pending).Some? ==> Durable(Dev()))
      ensures ok && old(pending).None? ==> Dev() == old(Dev())
      ensures pending.None? || pending == old(pending)
      ensures healthy && !shaky ==> ok
      ensures healthy && !ok ==> pending == old(pending) && Durable(Dev())
    {
      if pending.None? { return true; }
      ok := Attempt(healthy);
      if !ok { return; }
      var journal := pending;
      ok := Attempt(healthy);
      if !ok { return; }
      pending := None;
      mayPending := mayPending + {None};
      trail := Then(Dev(), trail);
      ok := SyncDirectory(d0, next, shaky);
      if !ok { PutBack(journal.value, d0, next); }
    }

    method PutBack(journal: State, ghost d0: Device, ghost next: Option<State>)
      requires Within(d0, next) && Some(journal) in mayPending
      requires Some(journal) == Effective(d0) || Some(journal) == next
      requires honest ==> Owned(table, Some(journal))
      modifies this`pending, this`mayCommitted, this`mayPending, this`trail
      ensures Within(d0, next)
      ensures pending == old(pending) || pending == Some(journal)
      ensures healthy ==> pending == Some(journal) && Durable(Dev())
    {
      var restored := Attempt(healthy);
      if restored {
        pending := Some(journal);
        trail := Then(Dev(), trail);
        restored := SyncDirectory(d0, next, false);
      }
    }

    /** Check a batch without changing the kernel. */
    method CheckBatch(target: Option<State>, seen: Option<Table>) returns (ok: bool)
      ensures healthy ==> ok
    {
      if seen.None? && Compile(target).None? { return true; }
      ok := Attempt(healthy);
    }

    /** Submit a batch: one kernel transaction that deletes the table if it exists and
        recreates it for `target`. */
    method RunBatch(target: Option<State>, seen: Option<Table>, ghost d0: Device, ghost next: Option<State>,
                    shaky: bool) returns (ok: bool)
      requires Within(d0, next) && Effective(Dev()).Some? && seen == table
      requires target.Some? ==> target.value.owner == Effective(Dev()).value.owner
      modifies this`table, this`honest, this`trail
      ensures Within(d0, next)
      ensures ok && honest ==> Matches(table, target)
      ensures healthy && !shaky ==> ok
      ensures healthy ==> honest == old(honest)
    {
      if seen.None? && Compile(target).None? { return true; }
      ok := Attempt(healthy && !shaky);
      if !ok { return; }
      var outcome: Outcome := *;
      if healthy && (!shaky || outcome.Garbled?) { outcome := Applied; }
      match outcome {
        case Applied =>
          table := Compile(target);
        case FailedAfterCommit =>
          table := Compile(target);
          ok := false;
        case FailedBefore =>
          ok := false;
        case Garbled(t, claimed) =>
          table, honest, ok := t, false, claimed;
      }
      trail := Then(Dev(), trail);
    }

    /** Re-examine the live table; any doubt closes the gate for the next start. */
    method Status()
      modifies this`ready
      ensures ready ==> old(ready)
      ensures Sane(Effective(Dev())) && Matches(table, Effective(Dev())) ==> ready == old(ready)
    {
      var ok, s := ReadState();
      var seen: Option<Table>;
      if ok { ok, seen := Observe(false); }
      if ok { ok := Owned(seen, s) && Matches(seen, s); }
      if !ok && s.Some? { ready := false; }
    }

    method PersistenceFailure()
      modifies this`ready, this`core
      ensures !ready && !core
    {
      ready := false;
      core := false;
      Status();
    }

    ghost function Now(): World
      reads this
    {
      World(Dev(), ready, core)
    }

    /** The listeners that the core configuration now offers still carry the policy. */
    predicate ConfigurationAllows(s: State)
      reads this`inbounds, this`management, this`reserved
    {
      s.rules == [] || Bind(s.rules, inbounds, Excluded()) == Some(s.bindings)
    }

    ghost predicate EffectiveFits()
      reads this
    {
      Effective(Dev()).Some? ==> ConfigurationAllows(Effective(Dev()).value)
    }

    /** Write the policy as committed, then drop the journal. */
    method CommitFiles(s: State, ghost d0: Device, ghost next: Option<State>) returns (ok: bool)
      requires Within(d0, next) && Owned(table, Some(s))
      requires Some(s) == Effective(d0) || Some(s) == next
      modifies this`committed, this`pending, this`mayCommitted, this`mayPending, this`trail
      ensures Within(d0, next)
      ensures ok ==> committed == Some(s) && pending.None? && Durable(Dev())
      ensures committed == old(committed) || committed == Some(s)
      ensures pending.None? || pending == old(pending)
      ensures healthy ==> ok
    {
      var r := SaveCommitted(s, d0, next, {});
      if !r.Saved? { return false; }
      ok := RemoveJournal(d0, next, false);
    }

    /** Persist a policy that the live table has been seen to match. */
    method Settle(s: State, ghost d0: Device, ghost next: Option<State>) returns (ok: bool)
      requires Within(d0, next) && Matches(table, Some(s)) && Owned(table, Some(s))
      requires Some(s) == Effective(d0) || Some(s) == next
      modifies this`committed, this`pending, this`mayCommitted, this`mayPending, this`trail, this`ready, this`core
      ensures Within(d0, next) && FailClosed(Dev(), ready, core)
      ensures ok ==> committed == Some(s) && pending.None? && Durable(Dev()) && core == old(core)
      ensures !ok ==> !ready && !core
      ensures Sane(Some(s)) ==> ok && ready
    {
      ok := CommitFiles(s, d0, next);
      if !ok {
        PersistenceFailure();
        return;
      }
      ready := true;
      Status();
    }

    /** No other process owns a protected port, and the configuration still fits. */
    method MayRestore(s: State) returns (ok: bool)
      ensures healthy && ConfigurationAllows(s) ==> ok
      ensures ok ==> ConfigurationAllows(s)
    {
      ok := Attempt(healthy);
      if ok && s.rules != [] {
        ok := Attempt(healthy);
        ok := ok && ConfigurationAllows(s);
      }
    }

    method RestoreTable(s: State, ghost d0: Device) returns (ok: bool)
      requires Within(d0, None) && Effective(Dev()) == Some(s)
      modifies this`table, this`honest, this`trail
      ensures Within(d0, None)
      ensures old(Matches(table, Some(s))) ==> table == old(table)
      ensures ok ==> Matches(table, Some(s))
      ensures healthy && old(honest) ==> ok
    {
      var seen: Option<Table>;
      ok, seen := Observe(false);
      if !ok { return; }
      ok := Owned(seen, Some(s));
      if !ok { return; }
      if !Matches(seen, Some(s)) {
        ok := CheckBatch(Some(s), seen);
        if !ok { return; }
        ok := RunBatch(Some(s), seen, d0, None, false);
        if !ok { return; }
      }
      ok, seen := Observe(false);
      ok := ok && Matches(seen, Some(s));
    }

    /** Bring the live table back to the persisted policy before listeners may start. */
    method Restore() returns (ok: bool)
      requires Valid()
      modifies this`committed, this`pending, this`table, this`honest, this`mayCommitted, this`mayPending, this`trail,
               this`ready, this`core
      ensures Valid() && QuietStep(old(Now()), Now(), trail)
      ensures ok ==> pending.None? && committed == old(Effective(Dev())) && Matches(table, committed)
      ensures !ok ==> !ready
      ensures core ==> old(core)
      ensures ok ==> core == old(core)
      ensures ok && !old(ready) ==> PortsClear()
      ensures old(PortsClear()) ==> PortsClear()
      ensures
        Sane(old(Effective(Dev()))) && old(honest) && old(EffectiveFits())
        ==> ok && ready
    {
      if ready {
        trail := At(Dev());
        ok := true;
      } else {
        ok := Reopen();
      }
    }

    method Reopen() returns (ok: bool)
      requires Valid() && !ready
      modifies this`committed, this`pending, this`table, this`honest, this`mayCommitted, this`mayPending, this`trail,
               this`ready, this`core
      ensures Valid() && QuietStep(old(Now()), Now(), trail)
      ensures ok ==> pending.None? && committed == old(Effective(Dev())) && Matches(table, committed)
      ensures !ok ==> !ready && (core ==> old(core))
      ensures ok ==> core == old(core)
      ensures ok || old(PortsClear()) ==> PortsClear()
      ensures Sane(old(Effective(Dev()))) && old(honest) && old(EffectiveFits()) ==> ok && ready
    {
      var s;
      ok, s := ReadState();
      ghost var d0 := Dev();
      trail := At(d0);
      if ok && s.Some? {
        ok := RestoreState(s.value, d0);
      } else {
        ready := ok;
      }
    }

    method RestoreState(s: State, ghost d0: Device) returns (ok: bool)
      requires Within(d0, None) && Dev() == d0 && Effective(d0) == Some(s) && FailClosed(d0, ready, core) && !ready
      modifies this`committed, this`pending, this`table, this`honest, this`mayCommitted, this`mayPending, this`trail,
               this`ready, this`core
      ensures Within(d0, None) && FailClosed(Dev(), ready, core)
      ensures ok ==> committed == Some(s) && pending.None? && Matches(table, committed) && core == old(core)
      ensures ok || Clear(d0, Excluded()) ==> PortsClear()
      ensures !ok ==> !ready && (core ==> old(core))
      ensures Sane(Some(s)) && old(honest) && old(ConfigurationAllows(s)) ==> ok && ready
    {
      ok := MayRestore(s);
      if ok { ok := RestoreTable(s, d0); }
      if ok {
        ok := Settle(s, d0, None);
        BindingsServe(s.rules, inbounds, Excluded());
      }
      if Clear(d0, Excluded()) { StaysClear(d0, None, Dev(), Excluded()); }
    }

    /** Put the table, and once that is verified the files, of the previous policy back. */
    method RestorePrior(prior: Option<State>, next: State, ghost d0: Device) returns (ok: bool)
      requires Within(d0, Some(next)) && prior == Effective(d0)
      requires pending == Some(next) && Durable(Dev()) && committed == d0.committed
      requires prior.Some? ==> prior.value.owner == next.owner
      modifies this`committed, this`pending, this`table, this`honest, this`mayCommitted, this`mayPending, this`trail
      ensures Within(d0, Some(next))
      ensures ok ==> pending.None? && committed == prior && Matches(table, committed)
      ensures committed == old(committed) || committed == prior
      ensures pending.None? || pending == old(pending)
      ensures healthy && old(honest) ==> ok
    {
      var seen: Option<Table>;
      ok, seen := Observe(false);
      if ok { ok := Owned(seen, Some(next)); }
      if !ok { return; }
      ok := RunBatch(prior, seen, d0, Some(next), false);
      if !ok { return; }
      ok, seen := Observe(false);
      ok := ok && Matches(seen, prior);
      if !ok { return; }
      if prior.Some? {
        ok := CommitFiles(prior.value, d0, Some(next));
      } else {
        ok := RemoveJournal(d0, Some(next), false);
      }
    }

    /** Give up on `next`; unless the previous policy is back and verified, leave the
        journal and close the listeners. */
    method Rollback(prior: Option<State>, next: State, ghost d0: Device)
      requires Within(d0, Some(next)) && prior == Effective(d0)
      requires pending == Some(next) && Durable(Dev()) && committed == d0.committed
      requires prior.Some? ==> prior.value.owner == next.owner
      modifies this`committed, this`pending, this`table, this`honest, this`mayCommitted, this`mayPending, this`trail,
               this`ready, this`core
      ensures Within(d0, Some(next)) && FailClosed(Dev(), ready, core) && (core ==> old(core))
      ensures ready || core ==> Effective(Dev()) == prior
      ensures Sane(prior) && old(honest) ==> core == old(core) && ready
    {
      var ok := RestorePrior(prior, next, d0);
      ready := ok;
      Status();
      if !ok { core := false; }
    }

    /** What an apply comes to when at most the `shaky` steps fail: without any it succeeds; a failure
        that is undone leaves the gate open and the core as it was; one that cannot be undone safely
        closes both. */
    ghost predicate Contained(shaky: set<Stage>, ok: bool, was: bool)
      reads this`ready, this`core
    {
      && (OnlyUndone(shaky) && OnlyClosing(shaky) ==> ok)
      && (OnlyUndone(shaky) ==> ready && core == was)
      && (OnlyClosing(shaky) ==> if ok then ready && core == was else !ready && !core)
    }

    /** Journal the intent, change the kernel, verify, commit, drop the journal. */
    method Install(prior: Option<State>, next: State, seen: Option<Table>, ghost d0: Device, shaky: set<Stage>)
        returns (ok: bool)
      requires Within(d0, Some(next)) && Dev() == d0 && prior == Effective(d0) && seen == table
      requires Owned(table, Some(next))
      requires prior.Some? ==> prior.value.owner == next.owner
      modifies this`committed, this`pending, this`table, this`honest, this`mayCommitted, this`mayPending, this`trail,
               this`ready, this`core
      ensures Within(d0, Some(next)) && FailClosed(Dev(), ready, core) && (core ==> old(core))
      ensures ok ==> committed == Some(next) && pending.None? && Durable(Dev()) && Matches(table, committed)
      ensures !ok && (ready || core) ==> Effective(Dev()) == prior
      ensures Sane(prior) && Sane(Some(next)) && old(honest) ==> Contained(shaky, ok, old(core))
    {
      ok := false;
      var saved := SavePending(next, d0, shaky);
      if !saved.Saved? {
        PersistenceFailure();
        return;
      }
      var applied := Submit(next, seen, d0, shaky);
      if !applied {
        Rollback(prior, next, d0);
        return;
      }
      ok := Finalize(prior, next, d0, shaky);
    }

    /** The kernel takes the batch, and its listing shows that it did. */
    method Submit(next: State, seen: Option<Table>, ghost d0: Device, shaky: set<Stage>) returns (ok: bool)
      requires Within(d0, Some(next)) && Effective(Dev()) == Some(next) && seen == table
      modifies this`table, this`honest, this`trail
      ensures Within(d0, Some(next)) && (ok ==> Matches(table, Some(next)))
      ensures healthy ==> honest == old(honest)
      ensures healthy && old(honest) && Batch !in shaky && Verification !in shaky ==> ok
    {
      ok := RunBatch(Some(next), seen, d0, Some(next), Batch in shaky);
      if ok {
        var verified;
        ok, verified := Observe(Verification in shaky);
        ok := ok && Matches(verified, Some(next));
      }
    }

    /** The table carries `next` and has been verified; the files follow. */
    method Finalize(prior: Option<State>, next: State, ghost d0: Device, shaky: set<Stage>) returns (ok: bool)
      requires Within(d0, Some(next)) && prior == Effective(d0)
      requires pending == Some(next) && Durable(Dev()) && committed == d0.committed && Matches(table, Some(next))
      requires Owned(table, Some(next))
      requires prior.Some? ==> prior.value.owner == next.owner
      modifies this`committed, this`pending, this`table, this`honest, this`mayCommitted, this`mayPending, this`trail,
               this`ready, this`core
      ensures Within(d0, Some(next)) && FailClosed(Dev(), ready, core) && (core ==> old(core))
      ensures ok ==> committed == Some(next) && pending.None? && Durable(Dev()) && Matches(table, committed)
      ensures !ok && (ready || core) ==> Effective(Dev()) == prior
      ensures Sane(prior) && Sane(Some(next)) && old(honest) ==> Contained(shaky, ok, old(core))
    {
      var saved := SaveCommitted(next, d0, Some(next), shaky);
      if saved.WriteFailed? {
        ok := false;
        Rollback(prior, next, d0);
      } else {
        ok := Conclude(saved.Saved?, next, d0, RemovalSync in shaky);
      }
    }

    /** `firewall.json` holds `next`, and `saved` tells that this is durable: drop the journal, or close. */
    method Conclude(saved: bool, next: State, ghost d0: Device, shaky: bool) returns (ok: bool)
      requires Within(d0, Some(next)) && committed == Some(next) && pending == Some(next)
      requires Matches(table, Some(next)) && Owned(table, Some(next)) && (saved ==> Durable(Dev()))
      modifies this`pending, this`mayCommitted, this`mayPending, this`trail, this`ready, this`core
      ensures Within(d0, Some(next)) && FailClosed(Dev(), ready, core) && (core ==> old(core))
      ensures ok ==> saved && committed == Some(next) && pending.None? && Durable(Dev()) && core == old(core)
      ensures !ok ==> !ready && !core
      ensures Sane(Some(next)) && saved && !shaky ==> ok
      ensures Sane(Some(next)) && ok ==> ready
    {
      ok := false;
      if saved { ok := RemoveJournal(d0, Some(next), shaky); }
      if ok {
        ready := true;
        Status();
      } else {
        PersistenceFailure();
      }
    }

    /** The request can be bound to listeners of this agent, now. */
    predicate Bindable(prior: Option<State>, req: Request)
      reads this`inbounds, this`management, this`reserved, this`core
    {
      req.rules == [] ||
      (var b := Bind(req.rules, inbounds, Excluded());
       b.Some? && Retains(b.value, if prior.Some? then prior.value.bindings else [], core))
    }

    method Prepare(prior: Option<State>, req: Request, token: string) returns (r: Option<State>)
      ensures r.Some? ==>
        && r.value.revision == req.revision && r.value.rules == req.rules && Avoids(req.rules, Excluded())
        && (prior.Some? ==> r.value.owner == prior.value.owner) && |r.value.bindings| == |req.rules|
      ensures r.Some? && ReadsBack(le, req) && IsToken(token) && (prior.Some? ==> WellFormed(le, prior.value)) ==>
        WellFormed(le, r.value)
      ensures r.Some? ==> Bindable(prior, req) && ConfigurationAllows(r.value)
      ensures healthy && Bindable(prior, req) ==> r.Some?
    {
      var bindings: seq<Target> := [];
      if req.rules != [] {
        var config := Attempt(healthy);
        if !config { return None; }
        var found := Bind(req.rules, inbounds, Excluded());
        if found.None? { return None; }
        BindingsServe(req.rules, inbounds, Excluded());
        bindings := found.value;
        if !Retains(bindings, if prior.Some? then prior.value.bindings else [], core) { return None; }
      }
      var owned := Attempt(healthy);
      if !owned { return None; }
      var random := Attempt(healthy);
      if prior.None? && !random { return None; }
      r := Some(State(if prior.Some? then prior.value.owner else token, req.revision, req.rules, bindings));
    }

    /** `network.firewall.apply`. The ghost result is the state that the request came to stand for. */
    method Apply(raw: RawRequest, token: string, shaky: set<Stage>) returns (ok: bool, ghost next: Option<State>)
      requires Valid() && IsToken(token)
      modifies this`committed, this`pending, this`table, this`honest, this`mayCommitted, this`mayPending, this`trail,
               this`ready, this`core
      ensures Valid() && (old(PortsClear()) ==> PortsClear())
      ensures !Acceptable(raw) ==> !ok && next.None? && Now() == old(Now()) && trail == At(Dev())
      ensures Acceptable(raw) ==> ApplyStep(old(Now()), Now(), trail, Canonical(le, raw), next, ok)
      ensures Spares(next, Excluded())
      ensures next.Some? && TotalPreorder(le) ==> Persists(le, raw, next.value)
      ensures ok ==> Acceptable(raw) && old(Bindable(Effective(Dev()), Canonical(le, raw)))
      ensures
        Acceptable(raw) && TotalPreorder(le) && Sane(old(Effective(Dev()))) && old(honest) &&
        Replaces(Canonical(le, raw), old(Effective(Dev()))) && old(Bindable(Effective(Dev()), Canonical(le, raw)))
        ==> Contained(shaky, ok, old(core))
      ensures !ok && ready ==>
        Effective(Dev()) == old(Effective(Dev())) && pending.None? && Matches(table, committed)
    {
      var req := DecodeFirewall(le, raw);
      if req.Ok? {
        if TotalPreorder(le) { DecodingIsIdempotent(le, raw); }
        ok, next := ApplyDecoded(req.value, token, shaky);
      } else {
        ok, next := false, None;
        trail := At(Dev());
      }
    }

    method ApplyDecoded(req: Request, token: string, shaky: set<Stage>) returns (ok: bool, ghost next: Option<State>)
      requires Valid() && IsToken(token)
      modifies this`committed, this`pending, this`table, this`honest, this`mayCommitted, this`mayPending, this`trail,
               this`ready, this`core
      ensures Valid() && (old(PortsClear()) ==> PortsClear())
      ensures ApplyStep(old(Now()), Now(), trail, req, next, ok)
      ensures Spares(next, Excluded())
      ensures next.Some? && ReadsBack(le, req) ==> WellFormed(le, next.value)
      ensures ok ==> old(Bindable(Effective(Dev()), req))
      ensures
        ReadsBack(le, req) && Sane(old(Effective(Dev()))) && old(honest) &&
        Admissible(old(Effective(Dev())), req) && old(Bindable(Effective(Dev()), req))
        ==> Contained(shaky, ok, old(core))
    {
      var prior, candidate := Select(req, token);
      ghost var d0 := Dev();
      trail := At(d0);
      ok, next := false, candidate;
      if candidate.Some? {
        ok := Carry(prior, candidate.value, d0, shaky);
        if Clear(d0, Excluded()) { StaysClear(d0, next, Dev(), Excluded()); }
      }
    }

    /** The persisted policy, and the state to replace it with. */
    method Select(req: Request, token: string) returns (prior: Option<State>, r: Option<State>)
      requires IsToken(token)
      ensures r.Some? ==> prior == Effective(Dev()) && Admissible(prior, req) && Bindable(prior, req)
      ensures r.Some? ==>
        && PolicyOf(r.value) == req && Spares(r, Excluded())
        && (prior.Some? ==> r.value.owner == prior.value.owner) && (healthy ==> Sane(prior))
        && (ReadsBack(le, req) ==> WellFormed(le, r.value))
      ensures Sane(Effective(Dev())) && Admissible(Effective(Dev()), req) && Bindable(Effective(Dev()), req) ==> r.Some?
    {
      var readable;
      readable, prior := ReadState();
      r := None;
      if readable && Admissible(prior, req) {
        r := Prepare(prior, req, token);
      }
    }

    /** A request that repeats a policy already live only settles its files. */
    method Carry(prior: Option<State>, next: State, ghost d0: Device, shaky: set<Stage>) returns (ok: bool)
      requires Within(d0, Some(next)) && Dev() == d0 && prior == Effective(d0)
      requires FailClosed(Dev(), ready, core)
      requires prior.Some? ==> prior.value.owner == next.owner
      requires prior.Some? && prior.value.revision == next.revision ==> prior.value.rules == next.rules
      modifies this`committed, this`pending, this`table, this`honest, this`mayCommitted, this`mayPending, this`trail,
               this`ready, this`core
      ensures Within(d0, Some(next)) && FailClosed(Dev(), ready, core) && (core ==> old(core))
      ensures ok ==>
        committed == Some(next) || (committed == prior && prior.Some? && prior.value.revision == next.revision)
      ensures ok ==> pending.None? && Durable(Dev()) && Matches(table, committed)
      ensures !ok && (ready || core) ==> Effective(Dev()) == prior
      ensures Sane(prior) && Sane(Some(next)) && old(honest) ==> Contained(shaky, ok, old(core))
    {
      var seen: Option<Table>;
      ok, seen := Observe(false);
      if !ok { return; }
      ok := Owned(seen, prior);
      if !ok { return; }
      if prior.Some? && next.revision == prior.value.revision && Matches(seen, prior) {
        ok := Settle(prior.value, d0, Some(next));
        return;
      }
      ok := CheckBatch(Some(next), seen);
      if !ok { return; }
      ok := Install(prior, next, seen, d0, shaky);
    }

    /** Start listeners, or leave them as they are. */
    method StartCore() returns (ok: bool)
      requires Valid()
      modifies this`committed, this`pending, this`table, this`honest, this`mayCommitted, this`mayPending, this`trail,
               this`ready, this`core
      ensures Valid() && QuietStep(old(Now()), Now(), trail) && (old(PortsClear()) ==> PortsClear())
      ensures ok ==> core && pending.None? && committed == old(Effective(Dev())) && Matches(table, committed)
      ensures Sane(old(Effective(Dev()))) && old(honest) && old(EffectiveFits()) ==> ok
    {
      ok := Restore();
      if ok && !core {
        var valid := Attempt(healthy);
        var launched := Attempt(healthy);
        ok := valid && launched && (committed.Some? ==> ConfigurationAllows(committed.value));
        core := ok;
        if ok && committed.Some? { BindingsServe(committed.value.rules, inbounds, Excluded()); }
      }
    }

    method StopCore()
      requires Valid()
      modifies this`core, this`trail
      ensures Valid() && QuietStep(old(Now()), Now(), trail) && !core
    {
      trail := At(Dev());
      core := false;
    }

    method Refresh()
      requires Valid()
      modifies this`ready, this`trail
      ensures Valid() && QuietStep(old(Now()), Now(), trail) && Dev() == old(Dev())
    {
      trail := At(Dev());
      Status();
    }

    /** Does a persisted policy protect this port? */
    method Protects(s: Option<State>, port: int) returns (found: bool)
      ensures found <==> !Spares(s, {port})
    {
      if s.None? { return false; }
      for i := 0 to |s.value.rules|
        invariant forall k | 0 <= k < i :: s.value.rules[k].port != port
      {
        if s.value.rules[i].port == port {
          assert s.value.rules[i] in s.value.rules;
          return true;
        }
      }
      found := false;
    }

    /** Neither file protects the port. */
    method FindFree(port: int) returns (free: bool)
      ensures free ==> Clear(Dev(), {port})
      ensures Sane(committed) && Sane(pending) && Clear(Dev(), {port}) ==> free
    {
      var readable, s := ReadFile(committed);
      if !readable { return false; }
      var taken := Protects(s, port);
      if taken { return false; }
      readable, s := ReadFile(pending);
      if !readable { return false; }
      taken := Protects(s, port);
      free := !taken;
    }

    /** Move the management listener. Both files are inspected, and every port the
        process has used stays reserved until it restarts. */
    method UpdateConnection(port: int) returns (ok: bool)
      requires Valid()
      modifies this`management, this`reserved, this`trail
      ensures Valid() && QuietStep(old(Now()), Now(), trail) && (old(PortsClear()) ==> PortsClear())
      ensures ok ==> management == port && reserved == old(reserved) + {old(management), port}
      ensures !ok ==> management == old(management) && reserved == old(reserved)
      ensures ok ==> 1 <= port <= 65535 && Clear(Dev(), {port})
      ensures Sane(committed) && Sane(pending) && 1 <= port <= 65535 && Clear(Dev(), {port}) ==> ok
    {
      trail := At(Dev());
      ok := false;
      if port < 1 || port > 65535 { return; }
      var free := FindFree(port);
      if !free { return; }
      ok := Attempt(healthy);
      if !ok { return; }
      reserved := reserved + {management, port};
      management := port;
    }

    /** One operation, as an event of a run. */
    method Perform(op: Operation) returns (ghost e: Event, ghost raw: RawRequest)
      requires Valid()
      modifies this
      ensures Valid() && Step(old(Now()), e, Now())
      ensures NextOf(e).Some? && TotalPreorder(le) ==> Persists(le, raw, NextOf(e).value)
      ensures old(PortsClear()) ==> PortsClear()
      ensures old(Excluded()) <= Excluded()
    {
      raw := RawRequest(0, None);
      var ok;
      match op {
        case ApplyRequest(received, token, shaky) =>
          ghost var next;
          ok, next := Apply(received, token, shaky);
          raw := received;
          e := if Acceptable(raw) then ApplyEvent(Canonical(le, raw), next, ok, trail) else QuietEvent(trail);
        case RestoreGate =>
          ok := Restore();
          e := QuietEvent(trail);
        case Start =>
          ok := StartCore();
          e := QuietEvent(trail);
        case Stop =>
          StopCore();
          e := QuietEvent(trail);
        case AskStatus =>
          Refresh();
          e := QuietEvent(trail);
        case MoveManagement(port) =>
          ok := UpdateConnection(port);
          e := QuietEvent(trail);
      }
    }

    /** A process, over any list of operations: they make up a run, and rules that left the management
        ports alone keep off every port that management has used since. */
    method Drive(ops: seq<Operation>) returns (ghost ws: seq<World>, ghost es: seq<Event>, ghost raws: seq<RawRequest>)
      requires Valid()
      modifies this
      ensures Valid() && Run(ws, es) && |es| == |ops| && ws[0] == old(Now()) && ws[|ops|] == Now()
      ensures TotalPreorder(le) ==> Submitted(le, raws, es)
      ensures (core || old(PortsClear()) ==> PortsClear()) && old(Excluded()) <= Excluded()
    {
      ws, es, raws := [Now()], [], [];
      for i := 0 to |ops|
        invariant Valid() && |es| == i && Run(ws, es) && ws[0] == old(Now()) && ws[i] == Now()
        invariant TotalPreorder(le) ==> Submitted(le, raws, es)
        invariant |raws| == i && (old(PortsClear()) ==> PortsClear()) && old(Excluded()) <= Excluded()
      {
        ghost var e, raw;
        e, raw := Perform(ops[i]);
        RunExtends(ws, es, e, Now());
        if TotalPreorder(le) { SubmittedExtends(le, raws, es, raw, e); }
        ws, es, raws := ws + [Now()], es + [e], raws + [raw];
      }
    }
  }

  // ----- Runs -----

  /** One event of a run: an operation carried through, or cut short at a device state
      it passed through, by a process crash or by a power loss. */
  datatype Event =
    | ApplyEvent(req: Request, next: Option<State>, ok: bool, trail: Trail<Device>)
    | QuietEvent(trail: Trail<Device>)
    | ApplyCut(req: Request, next: Option<State>, ok: bool, trail: Trail<Device>, planned: World, at: Device,
               power: bool)
    | QuietCut(trail: Trail<Device>, planned: World, at: Device, power: bool)

  predicate Restarts(at: Device, power: bool, w: World) {
    !w.ready && !w.core && if power then PowerLoss(at, w.dev) else w.dev == at
  }

  ghost predicate Step(w: World, e: Event, w2: World) {
    match e
    case ApplyEvent(req, next, ok, trail) => ApplyStep(w, w2, trail, req, next, ok)
    case QuietEvent(trail) => QuietStep(w, w2, trail)
    case ApplyCut(req, next, ok, trail, planned, at, power) =>
      ApplyStep(w, planned, trail, req, next, ok) && Visits(trail, at) && Restarts(at, power, w2)
    case QuietCut(trail, planned, at, power) =>
      QuietStep(w, planned, trail) && Visits(trail, at) && Restarts(at, power, w2)
  }

  ghost predicate Run(ws: seq<World>, es: seq<Event>) {
    && |ws| == |es| + 1
    && Sound(ws[0].dev) && FailClosed(ws[0].dev, ws[0].ready, ws[0].core)
    && forall i | 0 <= i < |es| :: Step(ws[i], es[i], ws[i + 1])
  }

  lemma RunExtends(ws: seq<World>, es: seq<Event>, e: Event, w: World)
    requires Run(ws, es) && Step(ws[|es|], e, w)
    ensures Run(ws + [w], es + [e])
  {
    var ws', es' := ws + [w], es + [e];
    forall i | 0 <= i < |es'| ensures Step(ws'[i], es'[i], ws'[i + 1]) {
      if i < |es| { assert Step(ws[i], es[i], ws[i + 1]); }
    }
  }

  lemma PowerLossKeepsSound(d: Device, after: Device)
    requires Sound(d) && PowerLoss(d, after)
    ensures Sound(after) && Contents(after) <= Contents(d) && forall e :: MayRecover(after, e) ==> MayRecover(d, e)
  {}

  ghost function NextOf(e: Event): Option<State> {
    if e.ApplyEvent? || e.ApplyCut? then e.next else None
  }

  /** Whatever an event does, its effect on recovery is that of a safe device state. */
  lemma StepIsSafe(w: World, e: Event, w2: World)
    requires Sound(w.dev) && Step(w, e, w2)
    ensures Sound(w2.dev) && FailClosed(w2.dev, w2.ready, w2.core)
    ensures forall x :: MayRecover(w2.dev, x) ==> MayRecover(w.dev, x) || (NextOf(e).Some? && x == NextOf(e))
    ensures Contents(w2.dev) <= Contents(w.dev) + {None, NextOf(e)}
  {
    if e.ApplyCut? || e.QuietCut? {
      VisitedIsSafe(w.dev, NextOf(e), e.trail, e.at);
      if e.power {
        PowerLossKeepsSound(e.at, w2.dev);
      }
    }
  }

  /** Fail closed, over every run: whenever no operation is in progress and listeners
      are up or allowed, the live table is that of the persisted policy and no journal
      is left. */
  lemma {:induction false} RunsFailClosed(ws: seq<World>, es: seq<Event>, i: nat)
    requires Run(ws, es) && i < |ws|
    ensures Sound(ws[i].dev) && FailClosed(ws[i].dev, ws[i].ready, ws[i].core)
  {
    if i > 0 {
      RunsFailClosed(ws, es, i - 1);
      StepIsSafe(ws[i - 1], es[i - 1], ws[i]);
    }
  }

  predicate AtLeast(s: Option<State>, req: Request) {
    s.Some? && (s.value.revision > req.revision || (s.value.revision == req.revision && s.value.rules == req.rules))
  }

  /** Whatever happens to the machine now, it comes back with `req` or something later. */
  ghost predicate Floor(d: Device, req: Request) {
    forall e :: MayRecover(d, e) ==> AtLeast(e, req)
  }

  lemma StepKeepsFloor(w: World, e: Event, w2: World, req: Request)
    requires Sound(w.dev) && Step(w, e, w2) && Floor(w.dev, req)
    ensures Floor(w2.dev, req)
  {
    StepIsSafe(w, e, w2);
    assert MayRecover(w.dev, Effective(w.dev));
    if NextOf(e).Some? && !Admissible(Effective(w.dev), e.req) {
      RefusedApplyChangesNothing(w, e, w2);
    }
  }

  lemma RefusedApplyChangesNothing(w: World, e: Event, w2: World)
    requires Step(w, e, w2) && NextOf(e).Some? && !Admissible(Effective(w.dev), e.req)
    ensures forall x :: MayRecover(w2.dev, x) ==> MayRecover(w.dev, x)
  {}

  lemma {:induction false} RunKeepsFloor(ws: seq<World>, es: seq<Event>, i: nat, j: nat, req: Request)
    requires Run(ws, es) && i <= j < |ws| && Floor(ws[i].dev, req)
    ensures Floor(ws[j].dev, req)
  {
    if i < j {
      RunKeepsFloor(ws, es, i, j - 1, req);
      RunsFailClosed(ws, es, j - 1);
      StepKeepsFloor(ws[j - 1], es[j - 1], ws[j], req);
    }
  }

  /** Once an apply has reported success, no later run - with failed applies, rollbacks,
      restores, crashes and power losses in any mix - lets an older revision succeed, or
      the same revision with other rules. */
  lemma SuccessIsNeverUndone(ws: seq<World>, es: seq<Event>, i: nat, j: nat)
    requires Run(ws, es) && i < j < |es|
    requires es[i].ApplyEvent? && es[i].ok && es[j].ApplyEvent? && es[j].ok
    ensures var r, q := es[i].req, es[j].req;
      q.revision > r.revision || (q.revision == r.revision && q.rules == r.rules)
  {
    assert Step(ws[i], es[i], ws[i + 1]) && Step(ws[j], es[j], ws[j + 1]);
    assert Floor(ws[i + 1].dev, es[i].req);
    RunKeepsFloor(ws, es, i + 1, j, es[i].req);
    RunsFailClosed(ws, es, j);
    assert MayRecover(ws[j].dev, Effective(ws[j].dev));
  }

  /** A crash inside an apply restarts into the old or the requested policy; so does a
      power loss, when the files were durable before the apply began. */
  lemma CrashRestartsIntoOldOrNew(w: World, e: Event, w2: World)
    requires Sound(w.dev) && e.ApplyCut? && Step(w, e, w2)
    requires e.power ==> Durable(w.dev)
    ensures Effective(w2.dev) == Effective(w.dev) || (e.next.Some? && Effective(w2.dev) == e.next)
  {
    StepIsSafe(w, e, w2);
    VisitedIsSafe(w.dev, e.next, e.trail, e.at);
    assert MayRecover(w2.dev, Effective(w2.dev));
  }

  /** After a reported success the requested policy is what any crash or power loss
      right away restarts into. */
  lemma SuccessSurvives(w: World, e: Event, w2: World, after: Device)
    requires Sound(w.dev) && e.ApplyEvent? && e.ok && Step(w, e, w2)
    requires after == w2.dev || PowerLoss(w2.dev, after)
    ensures Effective(after).Some? && Effective(after).value.revision == e.req.revision
    ensures Effective(after).value.rules == e.req.rules
  {}

  // ----- Where the stored policies come from -----

  /** Every policy in a file, and every one that a power loss can bring back, was there at the
      start or is what an earlier apply came to persist. */
  lemma {:induction false} StoredPoliciesWereRequested(ws: seq<World>, es: seq<Event>, i: nat, s: State)
    requires Run(ws, es) && i < |ws| && Some(s) in Contents(ws[i].dev)
    ensures Some(s) in Contents(ws[0].dev) || exists j | 0 <= j < i :: NextOf(es[j]) == Some(s)
  {
    if i > 0 {
      RunsFailClosed(ws, es, i - 1);
      StepIsSafe(ws[i - 1], es[i - 1], ws[i]);
      if NextOf(es[i - 1]) != Some(s) {
        StoredPoliciesWereRequested(ws, es, i - 1, s);
      }
    }
  }

  /** The requests as they were submitted: what an apply comes to persist is the canonical form of
      its request, in a form that is read back. */
  ghost predicate Submitted(le: (Prefix, Prefix) -> bool, raws: seq<RawRequest>, es: seq<Event>) {
    && |raws| == |es|
    && forall j | 0 <= j < |es| && NextOf(es[j]).Some? :: Persists(le, raws[j], NextOf(es[j]).value)
  }

  ghost predicate Persists(le: (Prefix, Prefix) -> bool, raw: RawRequest, s: State) {
    Acceptable(raw) && PolicyOf(s) == Canonical(le, raw) && WellFormed(le, s)
  }

  lemma SubmittedExtends(le: (Prefix, Prefix) -> bool, raws: seq<RawRequest>, es: seq<Event>, raw: RawRequest, e: Event)
    requires Submitted(le, raws, es) && (NextOf(e).Some? ==> Persists(le, raw, NextOf(e).value))
    ensures Submitted(le, raws + [raw], es + [e])
  {
  }

  ghost predicate AllReadable(le: (Prefix, Prefix) -> bool, d: Device) {
    forall s | Some(s) in Contents(d) :: WellFormed(le, s)
  }

  /** No run leaves a file that the agent would refuse to read. */
  lemma RunsStayReadable(ws: seq<World>, es: seq<Event>, i: nat, le: (Prefix, Prefix) -> bool, raws: seq<RawRequest>)
    requires Run(ws, es) && i < |ws| && Submitted(le, raws, es) && AllReadable(le, ws[0].dev)
    ensures AllReadable(le, ws[i].dev)
  {
    forall s | Some(s) in Contents(ws[i].dev) ensures WellFormed(le, s) {
      StoredPoliciesWereRequested(ws, es, i, s);
      if Some(s) !in Contents(ws[0].dev) {
        var j :| 0 <= j < i && NextOf(es[j]) == Some(s);
        assert Persists(le, raws[j], s);
      }
    }
  }

  // ----- Management ports after a restart -----

  /** A process crash restarts clear of the management ports if the operation began so. */
  lemma CrashRestartsClear(w: World, e: Event, w2: World, ports: set<int>)
    requires Step(w, e, w2) && (e.ApplyCut? || e.QuietCut?) && !e.power
    requires Clear(w.dev, ports) && Spares(NextOf(e), ports)
    ensures Clear(w2.dev, ports)
  {
    VisitedIsSafe(w.dev, NextOf(e), e.trail, e.at);
    StaysClear(w.dev, NextOf(e), e.at, ports);
  }

  /** Whatever a power loss brings back, no file covers one of the ports. */
  ghost predicate RestartsClear(d: Device, ports: set<int>) {
    forall after | PowerLoss(d, after) :: Clear(after, ports)
  }

  lemma RestartsClearIff(d: Device, ports: set<int>)
    requires Sound(d)
    ensures RestartsClear(d, ports) <==> (forall s | s in Contents(d) :: Spares(s, ports))
  {
    if RestartsClear(d, ports) {
      forall s | s in Contents(d) ensures Spares(s, ports) {
        var committed := if s in d.mayCommitted then s else d.committed;
        var pending := if s in d.mayPending then s else d.pending;
        var after := Device(committed, pending, {committed}, {pending}, None, true);
        assert PowerLoss(d, after);
      }
    }
  }

  /** Over synced files every power loss restarts clear of the ports iff the files are clear now: what
      the check before a change of the management port looks at. */
  lemma PowerLossRestartsClearIff(d: Device, ports: set<int>)
    requires Sound(d) && Durable(d)
    ensures RestartsClear(d, ports) <==> Clear(d, ports)
  {
    RestartsClearIff(d, ports);
    assert d.committed in Contents(d) && d.pending in Contents(d);
  }

  /** So the check is exact right after an apply has succeeded. */
  lemma CheckIsExactAfterSuccess(w: World, e: Event, w2: World, port: int)
    requires Sound(w.dev) && Step(w, e, w2) && e.ApplyEvent? && e.ok
    ensures RestartsClear(w2.dev, {port}) <==> Clear(w2.dev, {port})
  {
    StepIsSafe(w, e, w2);
    PowerLossRestartsClearIff(w2.dev, {port});
  }

  /** On any device, the check is good enough for every port iff each port that a power loss can bring
      back in a rule is covered by a file now. */
  lemma CheckSufficesIff(d: Device)
    requires Sound(d)
    ensures (forall port: int | Clear(d, {port}) :: RestartsClear(d, {port})) <==>
            (forall s, r | Some(s) in Contents(d) && r in s.rules :: !Clear(d, {r.port}))
  {
    if forall port: int | Clear(d, {port}) :: RestartsClear(d, {port}) {
      forall s, r | Some(s) in Contents(d) && r in s.rules ensures !Clear(d, {r.port}) {
        RestartsClearIff(d, {r.port});
        assert !Avoids(s.rules, {r.port});
      }
    }
    if forall s, r | Some(s) in Contents(d) && r in s.rules :: !Clear(d, {r.port}) {
      forall port: int | Clear(d, {port}) ensures RestartsClear(d, {port}) {
        RestartsClearIff(d, {port});
      }
    }
  }

  /** An apply on a fresh agent with its core running, whose batch fails, and whose journal is removed
      without a sync and cannot be written again: the files are empty, so that the management
      listener may move to the port of the policy, and a power loss then brings the policy back. */
  lemma RecoveredPolicyMayCoverThePort(next: State, r: Rule)
      returns (d0: Device, trail: Trail<Device>, d: Device, after: Device)
    requires r in next.rules
    ensures d0 == Device(None, None, {None}, {None}, None, true) && FailClosed(d0, true, true)
    ensures ApplyStep(World(d0, true, true), World(d, false, false), trail, PolicyOf(next), Some(next), false)
    ensures Clear(d, {r.port}) && PowerLoss(d, after) && !Clear(after, {r.port})
  {
    d0 := Device(None, None, {None}, {None}, None, true);
    var written := d0.(pending := Some(next), mayPending := {None, Some(next)});
    var synced := written.(mayPending := {Some(next)});
    d := d0.(mayPending := {None, Some(next)});
    trail := Then(d, Then(synced, Then(written, At(d0))));
    assert AllSafe(d0, Some(next), Then(written, At(d0)));
    assert AllSafe(d0, Some(next), Then(synced, Then(written, At(d0))));
    after := Device(None, Some(next), {None}, {Some(next)}, None, true);
  }
}
