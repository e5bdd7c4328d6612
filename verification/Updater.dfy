/** The self-update supervisor: three binaries and a status file, moved by single
    renames and writes. Every disk state an operation passes through is recorded, so
    that the supervisor can be lost at any of them. */
module Updater {
  import opened Common

  type Binary = string

  datatype Status = Absent | Staged | Ready | Restarting | Healthy | Completed | Failed | RolledBack

  datatype Disk = Disk(current: Option<Binary>, previous: Option<Binary>, next: Option<Binary>,
                       status: Status, task: string, version: string)

  /** The binary that a supervisor starting on this disk ends up running. */
  function Recovered(d: Disk): Option<Binary> {
    if d.status.Restarting? && d.previous.Some? then d.previous else d.current
  }

  /** Losing the supervisor here leads back to the last good binary, or to a replacement
      that has authenticated. */
  predicate Safe(d: Disk, good: Binary, confirmed: Option<Binary>) {
    Recovered(d) == Some(good) || (confirmed.Some? && Recovered(d) == confirmed)
  }

  /** Every state of the trail is safe, except where it is `bad`. */
  predicate SafeBut(trail: Trail<Disk>, good: Binary, confirmed: Option<Binary>, bad: Option<Disk>) {
    && (Safe(trail.d, good, confirmed) || bad == Some(trail.d))
    && (trail.Then? ==> SafeBut(trail.before, good, confirmed, bad))
  }

  predicate AllSafe(trail: Trail<Disk>, good: Binary, confirmed: Option<Binary>) {
    SafeBut(trail, good, confirmed, None)
  }

  lemma {:induction false} NoBadNeeded(trail: Trail<Disk>, good: Binary, confirmed: Option<Binary>, bad: Disk)
    requires SafeBut(trail, good, confirmed, Some(bad)) && Safe(bad, good, confirmed)
    ensures AllSafe(trail, good, confirmed)
  {
    if trail.Then? {
      NoBadNeeded(trail.before, good, confirmed, bad);
    }
  }

  lemma {:induction false} VisitedIsSafe(trail: Trail<Disk>, d: Disk, good: Binary, confirmed: Option<Binary>)
    requires AllSafe(trail, good, confirmed) && Visits(trail, d)
    ensures Safe(d, good, confirmed)
  {
    if trail.d != d {
      VisitedIsSafe(trail.before, d, good, confirmed);
    }
  }

  lemma {:induction false} MoreMayBeBad(trail: Trail<Disk>, good: Binary, confirmed: Option<Binary>, bad: Disk)
    requires AllSafe(trail, good, confirmed)
    ensures SafeBut(trail, good, confirmed, Some(bad))
  {
    if trail.Then? {
      MoreMayBeBad(trail.before, good, confirmed, bad);
    }
  }

  /** The intent to restart has been recorded. */
  function Marked(d: Disk): Disk {
    d.(status := Restarting)
  }

  /** The supervisor and its surroundings. `good` is the last good binary; `confirmed`
      is the replacement on trial once it has authenticated. */
  datatype World = World(
    disk: Disk, up: bool, child: Option<Binary>, trial: bool, good: Binary, confirmed: Option<Binary>)

  predicate InProgress(s: Status) {
    s.Staged? || s.Ready? || s.Restarting? || s.Healthy?
  }

  /** Outside a trial the good binary runs from its place; during one, the previous file
      holds it and the replacement runs. */
  predicate Inv(w: World) {
    && Safe(w.disk, w.good, w.confirmed)
    && (w.trial ==> w.up)
    && (!w.up ==> w.child.None?)
    && (w.up && !w.trial ==>
          && w.disk.current == Some(w.good) && w.confirmed.None?
          && !w.disk.status.Restarting? && !w.disk.status.Healthy?)
    && (w.up && w.trial ==>
          && w.disk.previous == Some(w.good) && w.disk.current.Some?
          && (w.child.None? || w.child == w.disk.current)
          && (w.disk.status.Restarting? || w.disk.status.Healthy?)
          && w.confirmed == if w.disk.status.Healthy? then w.disk.current else None)
  }

  /** The supervisor is lost while the disk is in state `d`; its child goes with it. */
  function Lost(w: World, d: Disk): World {
    World(d, false, None, false, w.good, w.confirmed)
  }

  /** An operation: it ends in order, and every disk state on the way is safe for the good
      binary and the replacement confirmed so far. Only the running replacement's own
      acknowledgement, which writes the status healthy, confirms it, and only a replacement
      confirmed before becomes good. */
  predicate Operation(w: World, w2: World, trail: Trail<Disk>, confirmed: Option<Binary>) {
    && Inv(w2) && AllSafe(trail, w.good, confirmed) && trail.d == w2.disk
    && (confirmed == w.confirmed || Acknowledges(w, trail, confirmed))
    && (w2.confirmed == confirmed || w2.confirmed.None?)
    && (w2.good == w.good || Some(w2.good) == w.confirmed)
  }

  predicate Acknowledges(w: World, trail: Trail<Disk>, confirmed: Option<Binary>) {
    && w.trial && w.child.Some? && confirmed == w.child && w.disk.status.Restarting?
    && trail == Then(w.disk.(status := Healthy), At(w.disk))
  }

  class Supervisor {
    var disk: Disk
    var up: bool
    var child: Option<Binary>
    var trial: bool
    const healthy: bool
    ghost var good: Binary
    ghost var confirmed: Option<Binary>
    ghost var trail: Trail<Disk>

    ghost function Now(): World
      reads this
    {
      World(disk, up, child, trial, good, confirmed)
    }

    constructor (w: World, healthy: bool)
      requires Inv(w)
      ensures Now() == w && this.healthy == healthy
    {
      this.healthy := healthy;
      disk, up, child, trial, good, confirmed := w.disk, w.up, w.child, w.trial, w.good, w.confirmed;
      trail := At(w.disk);
    }

    /** One file operation: it happens, or it fails and changes nothing. */
    method Try(d: Disk, ghost bad: Option<Disk>) returns (ok: bool)
      requires SafeBut(trail, good, confirmed, bad) && trail.d == disk && (Safe(d, good, confirmed) || bad == Some(d))
      modifies this`disk, this`trail
      ensures SafeBut(trail, good, confirmed, bad) && trail.d == disk
      ensures disk == if ok then d else old(disk)
      ensures trail == if ok then Then(d, old(trail)) else old(trail)
      ensures healthy ==> ok
    {
      ok := Attempt(healthy);
      if ok {
        disk := d;
        trail := Then(d, trail);
      }
    }

    /** Start-up: finish or undo whatever the last supervisor was doing, then run. */
    method Recover(self: Binary) returns (ok: bool)
      requires Inv(Now()) && !up
      modifies this
      ensures Operation(old(Now()), Now(), trail, old(confirmed))
      ensures ok ==> up && !trial && child == disk.current == old(Recovered(disk)) && good == child.value
      ensures ok && old(disk.status).Restarting? ==> disk.status.RolledBack?
      ensures ok && old(disk.status).Healthy? ==> disk.status.Completed?
      ensures ok && !old(disk.status).Restarting? && !old(disk.status).Healthy? ==> disk.status == old(disk.status)
      ensures ok ==> disk == old(disk).(current := disk.current, previous := disk.previous, status := disk.status)
      ensures !ok ==> !up && good == old(good) && confirmed == old(confirmed)
      ensures healthy ==> ok
    {
      trail := At(disk);
      ok := CopySelf(self);
      if !ok { return; }
      ok := Attempt(healthy);
      if !ok { return; }
      if disk.status.Restarting? {
        if disk.previous.Some? {
          ok := Try(disk.(current := disk.previous, previous := None), None);
          if !ok { return; }
        }
        ok := Try(disk.(status := RolledBack), None);
        if !ok { return; }
      } else if disk.status.Healthy? {
        ok := Try(disk.(status := Completed), None);
        if !ok { return; }
      }
      ok := Attempt(healthy);
      if !ok { return; }
      up, trial, child := true, false, disk.current;
      good, confirmed := child.value, None;
    }

    /** A missing current file is first filled with the supervisor's own binary, which
        may be lost half way. */
    method CopySelf(self: Binary) returns (ok: bool)
      requires AllSafe(trail, good, confirmed) && trail.d == disk
      modifies this`disk, this`trail
      ensures AllSafe(trail, good, confirmed) && trail.d == disk && Recovered(disk) == old(Recovered(disk))
      ensures disk == old(disk).(current := disk.current)
      ensures healthy ==> ok
    {
      if disk.current.Some? { return true; }
      var part: Binary := *;
      ok := Try(disk.(current := Some(part)), None);
      if !ok { return; }
      ok := Try(disk.(current := Some(self)), None);
    }

    /** A staged artifact has been acknowledged: verify it and put it on trial. `stale` tells
        that an old previous file could not be removed, which the program ignores. The artifact may
        fail its verification, not move into its place, or not start. */
    method Promote(verified: bool, moves: bool, starts: bool) returns (ghost stale: bool)
      requires Inv(Now()) && up && !trial && disk.status.Ready?
      modifies this
      ensures good == old(good)
      ensures stale ==> old(disk.previous).Some?
      ensures !stale || old(disk.previous) == Some(good) ==> Operation(old(Now()), Now(), trail, None)
      ensures SafeBut(trail, good, None, if stale then Some(Marked(old(disk))) else None) && trail.d == disk
      ensures Inv(Now()) || (stale && !up && disk == Marked(old(disk)))
      ensures up && trial ==>
        disk.current == old(disk.next) && disk.previous == old(disk.current) && disk.next.None? && child == disk.current
      ensures up && !trial ==> disk.current == Some(good)
      ensures !verified || old(disk.next).None? ==>
        && Now() == old(Now()).(disk := disk) && (disk == old(disk) || disk == old(disk).(status := Failed))
        && (healthy ==> disk.status.Failed?)
      ensures healthy && verified && old(disk.next).Some? ==> !stale && (up <==> moves) && (trial <==> moves && starts)
      ensures healthy && verified && old(disk.next).Some? && !moves ==>
        disk == Marked(old(disk)).(previous := None)
      ensures healthy && verified && old(disk.next).Some? && moves && !starts ==>
        disk.current == Some(good) == child && disk.status.RolledBack?
    {
      trail := At(disk);
      stale := false;
      var ok;
      if !verified || disk.next.None? {
        ok := Try(disk.(status := Failed), None);
        return;
      }
      child := None;
      ok := Try(disk.(previous := None), None);
      stale := disk.previous.Some?;
      ghost var bad := if stale then Some(Marked(disk)) else None;
      if stale { MoreMayBeBad(trail, good, None, Marked(disk)); }
      ok := Begin(moves, bad);
      if ok {
        trial := true;
        ok := Attempt(healthy);
        if ok && starts {
          child := disk.current;
        } else {
          Rollback(bad);
        }
      } else {
        up := false;
      }
      if stale && old(disk.previous) == Some(good) { NoBadNeeded(trail, good, None, Marked(old(disk))); }
    }

    /** Record the intent, set the running binary aside, move the replacement in. */
    method Begin(moves: bool, ghost bad: Option<Disk>) returns (ok: bool)
      requires SafeBut(trail, good, None, bad) && trail.d == disk && confirmed.None?
      requires disk.current == Some(good) && disk.next.Some? && disk.status.Ready?
      requires bad == if disk.previous.Some? then Some(Marked(disk)) else None
      modifies this`disk, this`trail
      ensures SafeBut(trail, good, None, bad) && trail.d == disk
      ensures ok ==>
        disk == old(disk).(status := Restarting, current := old(disk).next, previous := Some(good), next := None)
      ensures Safe(disk, good, None) || bad == Some(disk)
      ensures healthy ==> (ok <==> moves)
      ensures ok ==> moves
      ensures healthy && !moves ==> disk == Marked(old(disk)).(previous := None)
    {
      ok := Try(Marked(disk), bad);
      if !ok { return; }
      ok := Try(disk.(current := None, previous := disk.current), bad);
      if !ok { return; }
      ok := moves;
      if ok { ok := Try(disk.(current := disk.next, next := None), bad); }
      if !ok {
        var undone := Try(disk.(current := disk.previous, previous := None), bad);
      }
    }

    /** The replacement exited, could not start, or ran out of time. */
    method Rollback(ghost bad: Option<Disk>)
      requires Inv(Now()) && up && trial && SafeBut(trail, good, confirmed, bad) && trail.d == disk
      modifies this
      ensures Inv(Now()) && SafeBut(trail, good, old(confirmed), bad) && trail.d == disk
      ensures good == old(good) && !trial && (confirmed == old(confirmed) || confirmed.None?)
      ensures up ==> disk.current == Some(good) && disk.status.RolledBack? && child == disk.current
      ensures healthy ==> up
    {
      child, trial := None, false;
      var ok := Try(disk.(current := disk.previous, previous := None), bad);
      if ok { ok := Try(disk.(status := RolledBack), bad); }
      if ok {
        ok := Attempt(healthy);
        confirmed := None;
      }
      up := ok;
      if ok { child := disk.current; }
    }

    method GiveUp()
      requires Inv(Now()) && up && trial
      modifies this
      ensures Operation(old(Now()), Now(), trail, old(confirmed))
      ensures good == old(good) && !trial
      ensures up ==> disk.current == Some(good) && disk.status.RolledBack? && child == disk.current
      ensures healthy ==> up
    {
      trail := At(disk);
      Rollback(None);
    }

    /** The tick that finds a healthy replacement: it becomes the good binary. */
    method Confirm()
      requires Inv(Now()) && up && trial && disk.status.Healthy?
      modifies this
      ensures Operation(old(Now()), Now(), trail, old(confirmed))
      ensures up ==> !trial && good == old(disk.current).value && disk == old(disk).(status := Completed)
      ensures !up ==> disk == old(disk) && good == old(good)
      ensures healthy ==> up
    {
      trail := At(disk);
      var ok := Try(disk.(status := Completed), None);
      trial := false;
      if ok {
        good, confirmed := disk.current.value, None;
      } else {
        up, child := false, None;
      }
    }

    /** The agent downloads a replacement, unless an update is under way. */
    method Stage(binary: Binary, task: string, version: string) returns (ok: bool)
      requires Inv(Now()) && up && child.Some?
      modifies this
      ensures Operation(old(Now()), Now(), trail, confirmed)
      ensures ok ==> !old(InProgress(disk.status)) && disk.next == Some(binary)
                     && disk.status.Staged? && disk.task == task && disk.version == version
      ensures old(InProgress(disk.status)) ==> !ok && disk == old(disk)
      ensures healthy && !old(InProgress(disk.status)) ==> ok
      ensures Now() == old(Now()).(disk := disk)
    {
      trail := At(disk);
      if InProgress(disk.status) { return false; }
      ok := Try(disk.(next := None), None);
      if !ok { return; }
      ok := Try(disk.(next := Some(binary)), None);
      if !ok { return; }
      ok := Try(disk.(status := Staged, task := task, version := version), None);
    }

    /** An authenticated reply: it releases a staged update, or confirms the replacement
        under whose version it was received. */
    method Acknowledge(task: string, version: string)
      requires Inv(Now()) && up && child.Some?
      modifies this
      ensures Operation(old(Now()), Now(), trail, confirmed) && good == old(good)
      ensures disk == old(disk)
        || (old(disk.status).Staged? && old(disk.task) == task && disk == old(disk).(status := Ready)
            && confirmed == old(confirmed))
        || (old(disk.status).Restarting? && old(disk.version) == version && disk == old(disk).(status := Healthy)
            && confirmed == child)
      ensures healthy && old(disk.status).Staged? && old(disk.task) == task ==> disk.status.Ready?
      ensures healthy && old(disk.status).Restarting? && old(disk.version) == version ==> disk.status.Healthy?
    {
      trail := At(disk);
      if disk.status.Staged? && disk.task == task {
        var ok := Try(disk.(status := Ready), None);
      } else if disk.status.Restarting? && disk.version == version {
        confirmed := child;
        var ok := Try(disk.(status := Healthy), None);
        if !ok { confirmed := None; }
      }
    }
  }

  // ----- Runs -----

  datatype Event =
    | Done(trail: Trail<Disk>, confirmed: Option<Binary>)
    | Cut(planned: World, trail: Trail<Disk>, confirmed: Option<Binary>, at: Disk)

  /** An operation carried through, or cut at a disk state it passed through. What was to be
      confirmed is confirmed once the disk says so. */
  predicate Step(w: World, e: Event, w2: World) {
    match e
    case Done(trail, confirmed) => Operation(w, w2, trail, confirmed)
    case Cut(planned, trail, confirmed, at) =>
      && Operation(w, planned, trail, confirmed) && Visits(trail, at)
      && w2 == Lost(w.(confirmed := if at == w.disk then w.confirmed else confirmed), at)
  }

  /** A run starts with a good binary and nothing else to trust. */
  ghost predicate Run(ws: seq<World>, es: seq<Event>) {
    && |ws| == |es| + 1 && Inv(ws[0]) && ws[0].confirmed.None?
    && forall i | 0 <= i < |es| :: Step(ws[i], es[i], ws[i + 1])
  }

  lemma {:induction false} RunsStayInOrder(ws: seq<World>, es: seq<Event>, i: nat)
    requires Run(ws, es) && i < |ws|
    ensures Inv(ws[i])
  {
    if i > 0 {
      RunsStayInOrder(ws, es, i - 1);
      var e := es[i - 1];
      assert Step(ws[i - 1], e, ws[i]);
      if e.Cut? {
        VisitedIsSafe(e.trail, e.at, ws[i - 1].good, e.confirmed);
      }
    }
  }

  /** This step wrote the status healthy while `b` was the replacement running on trial. */
  predicate Authenticates(w: World, w2: World, b: Binary) {
    && w.up && w.trial && w.child == Some(b) && w.disk.current == Some(b)
    && w.disk.status.Restarting? && w2.disk == w.disk.(status := Healthy)
  }

  /** `b` authenticated in one of the first `i` steps. */
  ghost predicate Authenticated(ws: seq<World>, i: nat, b: Binary)
    requires i < |ws|
  {
    exists j | 0 <= j < i :: Authenticates(ws[j], ws[j + 1], b)
  }

  /** The good binary is the one the run began with or one that authenticated, and so is what is
      confirmed. */
  ghost predicate Trusted(ws: seq<World>, i: nat)
    requires i < |ws|
  {
    && (ws[i].good == ws[0].good || Authenticated(ws, i, ws[i].good))
    && (ws[i].confirmed.Some? ==> Authenticated(ws, i, ws[i].confirmed.value))
  }

  /** A step confirms nothing new, or it is the authentication of what it confirms. */
  lemma ConfirmingAuthenticates(w: World, e: Event, w2: World)
    requires Inv(w) && Step(w, e, w2)
    ensures w2.good == w.good || Some(w2.good) == w.confirmed
    ensures w2.confirmed.Some? ==> w2.confirmed == w.confirmed || Authenticates(w, w2, w2.confirmed.value)
  {
    if e.Cut? && Acknowledges(w, e.trail, e.confirmed) {
      assert e.trail.before == At(w.disk);
      assert Visits(e.trail.before, e.at) ==> e.at == w.disk;
    }
  }

  lemma {:induction false} RunsAreTrusted(ws: seq<World>, es: seq<Event>, i: nat)
    requires Run(ws, es) && i < |ws|
    ensures Trusted(ws, i)
  {
    if i > 0 {
      RunsAreTrusted(ws, es, i - 1);
      RunsStayInOrder(ws, es, i - 1);
      assert Step(ws[i - 1], es[i - 1], ws[i]);
      ConfirmingAuthenticates(ws[i - 1], es[i - 1], ws[i]);
      forall b | Authenticated(ws, i - 1, b) ensures Authenticated(ws, i, b) {
        var j :| 0 <= j < i - 1 && Authenticates(ws[j], ws[j + 1], b);
      }
    }
  }

  /** On every run, with the supervisor lost between any two file operations any number of
      times: what a restart runs, if it is not the binary the run began with, has written the
      status healthy in an earlier step while it ran on trial; and while a replacement is on
      trial, the previous file holds a binary of that kind to roll back to. */
  lemma RestartsAreTrusted(ws: seq<World>, es: seq<Event>, i: nat)
    requires Run(ws, es) && i < |ws|
    ensures !ws[i].up ==>
      && Recovered(ws[i].disk).Some?
      && var b := Recovered(ws[i].disk).value; b == ws[0].good || Authenticated(ws, i, b)
    ensures ws[i].trial ==>
      && ws[i].disk.previous == Some(ws[i].good)
      && (ws[i].good == ws[0].good || Authenticated(ws, i, ws[i].good))
  {
    RunsStayInOrder(ws, es, i);
    RunsAreTrusted(ws, es, i);
  }

  // ----- The stale previous file -----

  /** The disk states of a promotion after the attempt to remove the previous file. */
  function Promotion(d: Disk): seq<Disk> {
    var marked := Marked(d);
    var aside := marked.(current := None, previous := d.current);
    [marked, aside, aside.(current := d.next, next := None)]
  }

  /** Removal errors are ignored. A promotion is crash safe exactly when no previous file
      is left, or the one that is left is the good binary itself. */
  lemma PromotionIsSafeIff(d: Disk, good: Binary)
    requires d.status.Ready? && d.current == Some(good) && d.next.Some?
    ensures (forall x | x in Promotion(d) :: Safe(x, good, None)) <==> d.previous.None? || d.previous == Some(good)
  {
    var path := Promotion(d);
    assert path[0] in path;
  }

  /** With an unremovable older file, losing the supervisor right after the intent is
      written restarts that older binary. */
  lemma StalePreviousIsRestarted(d: Disk, good: Binary, older: Binary)
    requires d.status.Ready? && d.current == Some(good) && d.previous == Some(older) && older != good
    ensures Promotion(d)[0] in Promotion(d) && Recovered(Promotion(d)[0]) == Some(older)
    ensures !Safe(Promotion(d)[0], good, None)
  {}

  // ----- The first copy -----

  /** A missing current file is filled in place, not by a rename. Losing the supervisor half
      way is harmless exactly when an interrupted update is to be undone anyway; otherwise
      the next start runs whatever was copied so far. */
  lemma FirstCopyIsSafeIff(d: Disk, self: Binary)
    requires d.current.None?
    ensures (forall part: Binary :: Recovered(d.(current := Some(part))) == Recovered(d.(current := Some(self)))) <==>
      d.status.Restarting? && d.previous.Some?
  {
    if !(d.status.Restarting? && d.previous.Some?) {
      var torn := self + "x";
      assert torn != self;
      assert Recovered(d.(current := Some(torn))) == Some(torn);
    }
  }
}
