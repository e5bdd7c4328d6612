/** The control client's two bounded stores: the cache that keeps repeated commands from
    running twice, and the results that stay pending until they are acknowledged. */
module ControlClient {
  import opened Common

  /** A command result. `size` is the length of its encoding, absent when it cannot be
      encoded. */
  datatype TaskResult = TaskResult(id: string, success: bool, size: Option<nat>)

  const MAX_ENTRIES: nat := 2048
  const MAX_BYTES: nat := 32 * 1024 * 1024
  const MAX_BATCH: nat := 15 * 1024 * 1024

  function Length(r: TaskResult): nat {
    if r.size.Some? then r.size.value else 0
  }

  // ----- The cache, as a window over the history of executions -----

  datatype Entry = Entry(id: string, result: TaskResult)

  function Bytes(es: seq<Entry>): nat {
    if es == [] then 0 else Length(es[0].result) + Bytes(es[1..])
  }

  predicate Fits(es: seq<Entry>) {
    |es| <= MAX_ENTRIES && Bytes(es) <= MAX_BYTES
  }

  /** The longest suffix that fits. */
  function Kept(es: seq<Entry>): seq<Entry> {
    if Fits(es) then es else Kept(es[1..])
  }

  /** `Kept` is a suffix, it fits, and no longer suffix does. */
  lemma {:induction false} KeptIsLongestFit(es: seq<Entry>, i: nat)
    requires i <= |es|
    ensures Fits(Kept(es)) && |Kept(es)| <= |es| && Kept(es) == es[|es| - |Kept(es)|..]
    ensures Fits(es[i..]) ==> |es| - i <= |Kept(es)|
  {
    if !Fits(es) {
      KeptIsLongestFit(es[1..], if i == 0 then 0 else i - 1);
      assert es[1..][|es| - 1 - |Kept(es[1..])|..] == es[|es| - |Kept(es)|..];
      assert i > 0 ==> es[1..][i - 1..] == es[i..];
    }
  }

  lemma {:induction false} BytesAppend(es: seq<Entry>, e: Entry)
    ensures Bytes(es + [e]) == Bytes(es) + Length(e.result)
  {
    if es != [] {
      BytesAppend(es[1..], e);
      assert (es + [e])[1..] == es[1..] + [e];
    }
  }

  /** Evicting from the window alone gives the window of the whole history. */
  lemma {:induction false} KeptOfKept(es: seq<Entry>, e: Entry)
    ensures Kept(es + [e]) == Kept(Kept(es) + [e])
  {
    if !Fits(es) {
      BytesAppend(es, e);
      assert (es + [e])[1..] == es[1..] + [e];
      KeptOfKept(es[1..], e);
    }
  }

  function Ids(es: seq<Entry>): (r: seq<string>)
    ensures |r| == |es| && forall i | 0 <= i < |es| :: r[i] == es[i].id
  {
    seq(|es|, i requires 0 <= i < |es| => es[i].id)
  }

  function SeenIn(es: seq<Entry>): map<string, TaskResult> {
    if es == [] then map[] else SeenIn(es[..|es| - 1])[es[|es| - 1].id := es[|es| - 1].result]
  }

  function SizesIn(es: seq<Entry>): map<string, nat> {
    if es == [] then map[] else SizesIn(es[..|es| - 1])[es[|es| - 1].id := Length(es[|es| - 1].result)]
  }

  /** The tables hold exactly the entries of a window, each identifier once. */
  ghost predicate Tables(es: seq<Entry>, order: seq<string>, seen: map<string, TaskResult>,
                         sizes: map<string, nat>, bytes: int) {
    order == Ids(es) && Distinct(order) && seen == SeenIn(es) && sizes == SizesIn(es) && bytes == Bytes(es)
  }

  lemma {:induction false} SeenFacts(es: seq<Entry>, id: string)
    requires Distinct(Ids(es))
    ensures id in SeenIn(es) <==> id in Ids(es)
    ensures id in SeenIn(es) ==> Entry(id, SeenIn(es)[id]) in es
  {
    if es != [] {
      var front, last := es[..|es| - 1], es[|es| - 1];
      assert es == front + [last] && Ids(es) == Ids(front) + [last.id];
      SeenFacts(front, id);
    }
  }

  lemma DropFirst(es: seq<Entry>)
    requires es != [] && Distinct(Ids(es))
    ensures SeenIn(es[1..]) == SeenIn(es) - {es[0].id} && SizesIn(es[1..]) == SizesIn(es) - {es[0].id}
    ensures es[0].id in SizesIn(es) && SizesIn(es)[es[0].id] == Length(es[0].result)
  {
    SeenDropFirst(es);
    SizesDropFirst(es);
  }

  lemma {:induction false} SeenDropFirst(es: seq<Entry>)
    requires es != [] && Distinct(Ids(es))
    ensures SeenIn(es[1..]) == SeenIn(es) - {es[0].id}
  {
    if |es| > 1 {
      DistinctFront(es);
      SeenDropFirst(es[..|es| - 1]);
      assert es[1..][..|es| - 2] == es[..|es| - 1][1..];
    }
  }

  lemma {:induction false} SizesDropFirst(es: seq<Entry>)
    requires es != [] && Distinct(Ids(es))
    ensures SizesIn(es[1..]) == SizesIn(es) - {es[0].id}
    ensures es[0].id in SizesIn(es) && SizesIn(es)[es[0].id] == Length(es[0].result)
  {
    if |es| > 1 {
      DistinctFront(es);
      SizesDropFirst(es[..|es| - 1]);
      assert es[1..][..|es| - 2] == es[..|es| - 1][1..];
    }
  }

  lemma DistinctFront(es: seq<Entry>)
    requires |es| > 1 && Distinct(Ids(es))
    ensures Distinct(Ids(es[..|es| - 1])) && es[0].id != es[|es| - 1].id
  {
    assert Ids(es[..|es| - 1]) == Ids(es)[..|es| - 1];
    assert Ids(es)[0] != Ids(es)[|es| - 1];
  }

  /** The eviction loop: drop from the front while a limit is exceeded. */
  method Evict(ghost es: seq<Entry>, order: seq<string>, seen: map<string, TaskResult>, sizes: map<string, nat>,
               bytes: int)
      returns (order': seq<string>, seen': map<string, TaskResult>, sizes': map<string, nat>, bytes': int)
    requires Tables(es, order, seen, sizes, bytes)
    ensures Tables(Kept(es), order', seen', sizes', bytes')
  {
    order', seen', sizes', bytes' := order, seen, sizes, bytes;
    ghost var window := es;
    while |order'| > MAX_ENTRIES || bytes' > MAX_BYTES
      invariant Tables(window, order', seen', sizes', bytes') && Kept(window) == Kept(es)
      decreases |order'|
    {
      DropFirst(window);
      assert Ids(window[1..]) == order'[1..];
      bytes' := bytes' - sizes'[order'[0]];
      sizes' := sizes' - {order'[0]};
      seen' := seen' - {order'[0]};
      order' := order'[1..];
      window := window[1..];
    }
  }

  lemma DistinctAppend(s: seq<string>, x: string)
    requires Distinct(s) && x !in s
    ensures Distinct(s + [x])
  {
  }

  lemma IdsAppend(es: seq<Entry>, e: Entry)
    ensures Ids(es + [e]) == Ids(es) + [e.id]
  {
  }

  lemma TablesAppend(es: seq<Entry>, e: Entry)
    ensures SeenIn(es + [e]) == SeenIn(es)[e.id := e.result]
    ensures SizesIn(es + [e]) == SizesIn(es)[e.id := Length(e.result)]
  {
    assert (es + [e])[..|es|] == es;
  }

  lemma TablesAdd(es: seq<Entry>, order: seq<string>, seen: map<string, TaskResult>, sizes: map<string, nat>,
                  bytes: int, e: Entry)
    requires Tables(es, order, seen, sizes, bytes) && e.id !in seen
    ensures Tables(es + [e], order + [e.id], seen[e.id := e.result], sizes[e.id := Length(e.result)],
                   bytes + Length(e.result))
  {
    SeenFacts(es, e.id);
    DistinctAppend(order, e.id);
    IdsAppend(es, e);
    TablesAppend(es, e);
    BytesAppend(es, e);
  }

  // ----- Batches -----

  function Sum(sizes: seq<nat>): nat {
    if sizes == [] then 0 else sizes[0] + Sum(sizes[1..])
  }

  /** How many sizes fit, in order, beside `used` bytes. */
  function FitCount(sizes: seq<nat>, used: nat): (n: nat)
    ensures n <= |sizes|
  {
    if sizes == [] || used + sizes[0] > MAX_BATCH then 0 else 1 + FitCount(sizes[1..], used + sizes[0])
  }

  lemma {:induction false} FitCountFacts(sizes: seq<nat>, used: nat)
    ensures var n := FitCount(sizes, used);
      && (n > 0 ==> used + Sum(sizes[..n]) <= MAX_BATCH)
      && (n < |sizes| ==> used + Sum(sizes[..n]) + sizes[n] > MAX_BATCH)
  {
    var n := FitCount(sizes, used);
    if n > 0 {
      FitCountFacts(sizes[1..], used + sizes[0]);
      assert sizes[..n][1..] == sizes[1..][..n - 1];
    }
  }

  lemma {:induction false} FitCountFrom(sizes: seq<nat>, used: nat, i: nat)
    requires i <= FitCount(sizes, used)
    ensures FitCount(sizes, used) == i + FitCount(sizes[i..], used + Sum(sizes[..i]))
  {
    if i > 0 {
      FitCountFrom(sizes[1..], used + sizes[0], i - 1);
      assert sizes[..i][1..] == sizes[1..][..i - 1];
      assert sizes[1..][i - 1..] == sizes[i..];
    } else {
      assert sizes[0..] == sizes;
    }
  }

  lemma {:induction false} SumAppend(sizes: seq<nat>, x: nat)
    ensures Sum(sizes + [x]) == Sum(sizes) + x
  {
    if sizes != [] {
      SumAppend(sizes[1..], x);
      assert (sizes + [x])[1..] == sizes[1..] + [x];
    }
  }

  /** A result that can be sent as it is. */
  predicate Fitting(r: TaskResult) {
    r.size.Some? && r.size.value <= MAX_BATCH
  }

  /** `s` reports that the result `r` could not be sent. */
  predicate StubOf(r: TaskResult, s: TaskResult) {
    !Fitting(r) && s.id == r.id && !s.success && s.size.Some?
  }

  /** `s` waits in the place of `r`: it is `r` itself, unless that cannot be sent. */
  predicate Stands(r: TaskResult, s: TaskResult) {
    s == r || StubOf(r, s)
  }

  /** `s` is sent for `r`: exactly `r` if it can be sent, and otherwise the report that it could not. */
  predicate SentFor(r: TaskResult, s: TaskResult) {
    if Fitting(r) then s == r else StubOf(r, s)
  }

  /** What replaces a result that cannot be sent; `stub` gives its encoded length. */
  function Shrink(stub: string -> nat, r: TaskResult): (s: TaskResult)
    ensures s.id == r.id && s.size.Some?
  {
    if r.size.None? || r.size.value > MAX_BATCH then TaskResult(r.id, false, Some(stub(r.id))) else r
  }

  function ShrinkAll(stub: string -> nat, rs: seq<TaskResult>): (r: seq<TaskResult>)
    ensures |r| == |rs| && forall i | 0 <= i < |rs| :: r[i] == Shrink(stub, rs[i])
  {
    seq(|rs|, i requires 0 <= i < |rs| => Shrink(stub, rs[i]))
  }

  function Lengths(rs: seq<TaskResult>): (r: seq<nat>)
    ensures |r| == |rs| && forall i | 0 <= i < |rs| :: r[i] == Length(rs[i])
  {
    seq(|rs|, i requires 0 <= i < |rs| => Length(rs[i]))
  }

  /** The batch for the pending results: a prefix of them, each shrunk where needed. */
  function Batch(stub: string -> nat, rs: seq<TaskResult>): (b: seq<TaskResult>)
    ensures |b| <= |rs|
  {
    var all := ShrinkAll(stub, rs);
    all[..FitCount(Lengths(all), 0)]
  }

  /** A batch is within the limit, cannot be extended, and is never empty while results
      wait and their stubs fit. */
  lemma BatchFacts(stub: string -> nat, rs: seq<TaskResult>)
    ensures var b, all := Batch(stub, rs), ShrinkAll(stub, rs);
      && b == all[..|b|]
      && Sum(Lengths(b)) <= MAX_BATCH
      && (|b| < |rs| ==> Sum(Lengths(b)) + Length(all[|b|]) > MAX_BATCH)
      && (rs != [] && stub(rs[0].id) <= MAX_BATCH ==> b != [])
  {
    var all := ShrinkAll(stub, rs);
    var sizes := Lengths(all);
    var n := FitCount(sizes, 0);
    FitCountFacts(sizes, 0);
    assert Lengths(all[..n]) == sizes[..n];
    if rs != [] && stub(rs[0].id) <= MAX_BATCH {
      assert sizes[0] <= MAX_BATCH;
    }
  }

  /** The batches that acknowledged rounds send, until nothing is pending. */
  function Rounds(stub: string -> nat, rs: seq<TaskResult>): seq<seq<TaskResult>>
    requires forall r | r in rs :: stub(r.id) <= MAX_BATCH
  {
    if rs == [] then []
    else
      BatchFacts(stub, rs);
      var b := Batch(stub, rs);
      [b] + Rounds(stub, rs[|b|..])
  }

  function ResultIds(rs: seq<TaskResult>): (r: seq<string>)
    ensures |r| == |rs| && forall i | 0 <= i < |rs| :: r[i] == rs[i].id
  {
    seq(|rs|, i requires 0 <= i < |rs| => rs[i].id)
  }

  function Flatten(batches: seq<seq<TaskResult>>): seq<string> {
    if batches == [] then [] else ResultIds(batches[0]) + Flatten(batches[1..])
  }

  predicate Sendable(b: seq<TaskResult>) {
    b != [] && Sum(Lengths(b)) <= MAX_BATCH
  }

  lemma OneRound(first: seq<TaskResult>, rest: seq<seq<TaskResult>>, all: seq<seq<TaskResult>>)
    requires all == [first] + rest && Sendable(first)
    requires forall i | 0 <= i < |rest| :: Sendable(rest[i])
    ensures Flatten(all) == ResultIds(first) + Flatten(rest) && |all| == 1 + |rest|
    ensures forall i | 0 <= i < |all| :: Sendable(all[i])
  {
    assert all[1..] == rest;
  }

  /** Acknowledged rounds drain the queue: every pending identifier is sent exactly once,
      in order, in batches within the limit. */
  lemma {:induction false} RoundsDrain(stub: string -> nat, rs: seq<TaskResult>)
    requires forall r | r in rs :: stub(r.id) <= MAX_BATCH
    ensures Flatten(Rounds(stub, rs)) == ResultIds(rs)
    ensures |Rounds(stub, rs)| <= |rs|
    ensures forall i | 0 <= i < |Rounds(stub, rs)| :: Sendable(Rounds(stub, rs)[i])
    decreases |rs|
  {
    if rs != [] {
      BatchFacts(stub, rs);
      var first := Batch(stub, rs);
      RoundsDrain(stub, rs[|first|..]);
      OneRound(first, Rounds(stub, rs[|first|..]), Rounds(stub, rs));
      BatchIds(stub, rs);
    }
  }

  lemma BatchIds(stub: string -> nat, rs: seq<TaskResult>)
    ensures var b := Batch(stub, rs); ResultIds(rs) == ResultIds(b) + ResultIds(rs[|b|..])
  {
  }

  // ----- Conservation -----

  /** A pending result with its place in the order of production. */
  datatype Pending = Pending(index: nat, result: TaskResult)

  function Results(queue: seq<Pending>): (r: seq<TaskResult>)
    ensures |r| == |queue| && forall i | 0 <= i < |queue| :: r[i] == queue[i].result
  {
    seq(|queue|, i requires 0 <= i < |queue| => queue[i].result)
  }

  predicate Before(queue: seq<Pending>, i: int, j: int) {
    0 <= i < j < |queue| ==> queue[i].index < queue[j].index
  }

  ghost predicate Ordered(queue: seq<Pending>) {
    forall i, j {:trigger Before(queue, i, j)} :: Before(queue, i, j)
  }

  predicate Genuine(produced: seq<TaskResult>, queue: seq<Pending>, p: Pending) {
    p in queue ==> p.index < |produced| && Stands(produced[p.index], p.result)
  }

  /** The places of a queue, in order. */
  function Places(queue: seq<Pending>): (r: seq<nat>)
    ensures |r| == |queue| && forall i | 0 <= i < |queue| :: r[i] == queue[i].index
  {
    seq(|queue|, i requires 0 <= i < |queue| => queue[i].index)
  }

  lemma PlacesOfPrefix(queue: seq<Pending>, reported: seq<nat>)
    requires reported <= Places(queue)
    ensures Indices(queue[..|reported|]) == set k | k in reported
  {
    var front := queue[..|reported|];
    forall i | 0 <= i < |reported| ensures front[i].index == reported[i] {}
    forall k | k in reported ensures k in Indices(front) {
      var i :| 0 <= i < |reported| && reported[i] == k;
      assert front[i] in front;
    }
    forall k | k in Indices(front) ensures k in reported {
      var p :| p in front && p.index == k;
      var i :| 0 <= i < |front| && front[i] == p;
      assert reported[i] == k;
    }
  }

  ghost predicate Waits(queue: seq<Pending>, k: nat) {
    exists p :: p in queue && p.index == k
  }

  ghost predicate Accounted(produced: seq<TaskResult>, queue: seq<Pending>, covered: set<nat>, k: nat) {
    if k < |produced| then k in covered <==> !Waits(queue, k) else k !in covered
  }

  /** Every result produced is either still pending, in order, or covered by an acknowledgement, and
      nothing else is covered. */
  ghost predicate Conserved(produced: seq<TaskResult>, queue: seq<Pending>, covered: set<nat>) {
    && Ordered(queue)
    && (forall p {:trigger Genuine(produced, queue, p)} :: Genuine(produced, queue, p))
    && (forall k: nat {:trigger Accounted(produced, queue, covered, k)} :: Accounted(produced, queue, covered, k))
  }

  function Indices(queue: seq<Pending>): set<nat> {
    set p | p in queue :: p.index
  }

  lemma PlacedOnce(queue: seq<Pending>, p: Pending, q: Pending)
    requires Ordered(queue) && p in queue && q in queue && p.index == q.index
    ensures p == q
  {
    var i :| 0 <= i < |queue| && queue[i] == p;
    var j :| 0 <= j < |queue| && queue[j] == q;
    assert Before(queue, i, j) && Before(queue, j, i);
  }

  lemma ProductionConserves(produced: seq<TaskResult>, queue: seq<Pending>, covered: set<nat>, r: TaskResult)
    requires Conserved(produced, queue, covered)
    ensures Conserved(produced + [r], queue + [Pending(|produced|, r)], covered)
  {
    var p := Pending(|produced|, r);
    var after, more := queue + [p], produced + [r];
    forall i, j ensures Before(after, i, j) {
      assert Before(queue, i, j);
      if 0 <= i < |queue| {
        assert queue[i] in queue && Genuine(produced, queue, queue[i]);
      }
    }
    forall q ensures Genuine(more, after, q) {
      assert Genuine(produced, queue, q);
    }
    forall k: nat ensures Accounted(more, after, covered, k) {
      assert Accounted(produced, queue, covered, k);
      if k == |produced| {
        assert p in after;
      } else if Waits(queue, k) {
        var q :| q in queue && q.index == k;
        assert q in after;
      }
    }
  }

  /** Results that leave the queue leave it for good, and the others stay accounted for. */
  lemma LeavingConserves(produced: seq<TaskResult>, queue: seq<Pending>, covered: set<nat>, rest: seq<Pending>,
                         gone: set<nat>)
    requires Conserved(produced, queue, covered) && Ordered(rest) && gone <= Indices(queue)
    requires forall p :: p in rest <==> p in queue && p.index !in gone
    ensures Conserved(produced, rest, covered + gone)
  {
    forall q ensures Genuine(produced, rest, q) {
      assert Genuine(produced, queue, q);
    }
    forall k: nat ensures Accounted(produced, rest, covered + gone, k) {
      assert Accounted(produced, queue, covered, k);
      if k in gone {
        var p :| p in queue && p.index == k;
        assert Genuine(produced, queue, p);
      }
      if Waits(queue, k) && k !in gone {
        var q :| q in queue && q.index == k;
        assert q in rest;
      }
    }
  }

  lemma PrefixConserves(produced: seq<TaskResult>, queue: seq<Pending>, covered: set<nat>, n: nat)
    requires Conserved(produced, queue, covered) && n <= |queue|
    ensures Conserved(produced, queue[n..], covered + Indices(queue[..n]))
  {
    var front, rest := queue[..n], queue[n..];
    assert queue == front + rest;
    forall i, j ensures Before(rest, i, j) {
      assert Before(queue, n + i, n + j);
    }
    forall p ensures p in rest <==> p in queue && p.index !in Indices(front) {
      if p in rest {
        var j :| 0 <= j < |rest| && rest[j] == p;
        forall q | q in front ensures q.index < p.index {
          var i :| 0 <= i < n && queue[i] == q;
          assert Before(queue, i, n + j);
        }
      }
    }
    LeavingConserves(produced, queue, covered, rest, Indices(front));
  }

  /** Results whose identifier is not among those acknowledged. */
  function Remaining(queue: seq<Pending>, ids: set<string>): seq<Pending> {
    if queue == [] then []
    else
      var last := queue[|queue| - 1];
      Remaining(queue[..|queue| - 1], ids) + (if last.result.id in ids then [] else [last])
  }

  lemma {:induction false} RemainingFacts(queue: seq<Pending>, ids: set<string>)
    requires Ordered(queue)
    ensures Ordered(Remaining(queue, ids))
    ensures forall p :: p in Remaining(queue, ids) <==> p in queue && p.result.id !in ids
  {
    if queue != [] {
      var front, last := queue[..|queue| - 1], queue[|queue| - 1];
      assert queue == front + [last];
      forall i, j ensures Before(front, i, j) {
        assert Before(queue, i, j);
      }
      RemainingFacts(front, ids);
      var kept, after := Remaining(front, ids), Remaining(queue, ids);
      forall i, j ensures Before(after, i, j) {
        assert Before(kept, i, j);
        if 0 <= i < |kept| {
          assert kept[i] in kept && kept[i] in front;
          var m :| 0 <= m < |front| && front[m] == kept[i];
          assert Before(queue, m, |queue| - 1);
        }
      }
    }
  }

  predicate NoneNamed(queue: seq<Pending>, ids: set<string>) {
    forall p | p in queue :: p.result.id !in ids
  }

  /** Places that stand first stay there exactly when none of them is named. */
  lemma CountedAfterNamingIff(queue: seq<Pending>, ids: set<string>, reported: seq<nat>)
    requires Ordered(queue) && reported <= Places(queue)
    ensures reported <= Places(Remaining(queue, ids)) <==> NoneNamed(queue[..|reported|], ids)
  {
    var n := |reported|;
    if NoneNamed(queue[..n], ids) {
      RemainingStartsWith(queue, ids, n);
      assert Places(queue)[..n] == Places(queue[..n]);
    } else {
      var p :| p in queue[..n] && p.result.id in ids;
      var i :| 0 <= i < n && queue[i] == p;
      NamedIsGone(queue, ids, i, reported);
    }
  }

  lemma {:induction false} RemainingStartsWith(queue: seq<Pending>, ids: set<string>, n: nat)
    requires n <= |queue| && NoneNamed(queue[..n], ids)
    ensures queue[..n] <= Remaining(queue, ids)
  {
    if queue != [] {
      var front, last := queue[..|queue| - 1], queue[|queue| - 1];
      if n < |queue| {
        assert front[..n] == queue[..n];
        RemainingStartsWith(front, ids, n);
      } else {
        assert queue[..n] == queue && last in queue;
        forall p | p in front ensures p in queue {}
        assert front[..n - 1] == front;
        RemainingStartsWith(front, ids, n - 1);
        RemainingIsShort(front, ids);
      }
    }
  }

  lemma {:induction false} RemainingIsShort(queue: seq<Pending>, ids: set<string>)
    ensures |Remaining(queue, ids)| <= |queue|
  {
    if queue != [] {
      RemainingIsShort(queue[..|queue| - 1], ids);
    }
  }

  lemma NamedIsGone(queue: seq<Pending>, ids: set<string>, i: nat, reported: seq<nat>)
    requires Ordered(queue) && i < |reported| <= |queue| && reported[i] == queue[i].index && queue[i].result.id in ids
    ensures !(reported <= Places(Remaining(queue, ids)))
  {
    RemainingFacts(queue, ids);
    var rest := Remaining(queue, ids);
    if i < |rest| {
      assert rest[i] in rest;
      var j :| 0 <= j < |queue| && queue[j] == rest[i];
      assert Before(queue, i, j) && Before(queue, j, i);
      assert Places(rest)[i] != reported[i];
    }
  }

  function Named(queue: seq<Pending>, ids: set<string>): set<nat> {
    set p | p in queue && p.result.id in ids :: p.index
  }

  lemma NamingConserves(produced: seq<TaskResult>, queue: seq<Pending>, covered: set<nat>, ids: set<string>)
    requires Conserved(produced, queue, covered)
    ensures Conserved(produced, Remaining(queue, ids), covered + Named(queue, ids))
  {
    RemainingFacts(queue, ids);
    var rest := Remaining(queue, ids);
    forall p ensures p in rest <==> p in queue && p.index !in Named(queue, ids) {
      if p in queue && p.index in Named(queue, ids) {
        var q :| q in queue && q.result.id in ids && q.index == p.index;
        PlacedOnce(queue, p, q);
      }
    }
    LeavingConserves(produced, queue, covered, rest, Named(queue, ids));
  }

  /** Shrinking a result in place keeps its identifier and its place. */
  function Reshape(queue: seq<Pending>, rs: seq<TaskResult>): (r: seq<Pending>)
    requires |queue| == |rs|
    ensures |r| == |rs| && forall i | 0 <= i < |rs| :: r[i] == Pending(queue[i].index, rs[i])
  {
    seq(|rs|, i requires 0 <= i < |rs| => Pending(queue[i].index, rs[i]))
  }

  /** The same places, with the same results or stubs for those that cannot be sent. */
  predicate Reshaped(queue: seq<Pending>, after: seq<Pending>) {
    && |after| == |queue|
    && forall i | 0 <= i < |queue| ::
         after[i].index == queue[i].index && Stands(queue[i].result, after[i].result)
  }

  lemma ReshapeConserves(produced: seq<TaskResult>, queue: seq<Pending>, covered: set<nat>, after: seq<Pending>)
    requires Conserved(produced, queue, covered) && Reshaped(queue, after)
    ensures Conserved(produced, after, covered)
  {
    forall i, j ensures Before(after, i, j) {
      assert Before(queue, i, j);
    }
    forall p ensures Genuine(produced, after, p) {
      if p in after {
        var i :| 0 <= i < |after| && after[i] == p;
        assert Genuine(produced, queue, queue[i]) && queue[i] in queue;
      }
    }
    forall k: nat ensures Accounted(produced, after, covered, k) {
      assert Accounted(produced, queue, covered, k);
      if Waits(queue, k) {
        var q :| q in queue && q.index == k;
        var i :| 0 <= i < |queue| && queue[i] == q;
        assert after[i] in after;
      }
      if Waits(after, k) {
        var q :| q in after && q.index == k;
        var i :| 0 <= i < |after| && after[i] == q;
        assert queue[i] in queue;
      }
    }
  }

  /** The batch loop; an unsendable result is replaced in the queue itself. */
  method BuildBatch(stub: string -> nat, pending: seq<TaskResult>)
      returns (batch: seq<TaskResult>, results: seq<TaskResult>)
    ensures batch == Batch(stub, pending)
    ensures |results| == |pending| && ResultIds(results) == ResultIds(pending) && batch == results[..|batch|]
    ensures forall k | 0 <= k < |pending| ::
      || results[k] == pending[k]
      || (!Fitting(pending[k]) && results[k] == TaskResult(pending[k].id, false, Some(stub(pending[k].id))))
    ensures forall r | r in batch :: Fitting(r)
  {
    ghost var all := ShrinkAll(stub, pending);
    ghost var lengths := Lengths(all);
    results, batch := pending, [];
    var size, i := 0, 0;
    while i < |results|
      invariant 0 <= i <= |results| == |pending| && i <= FitCount(lengths, 0)
      invariant forall k | 0 <= k < |pending| :: results[k] == if k < i then all[k] else pending[k]
      invariant batch == results[..i] && size == Sum(lengths[..i])
      invariant forall k | 0 <= k < i :: Fitting(results[k])
    {
      FitStep(lengths, i);
      if results[i].size.None? || results[i].size.value > MAX_BATCH {
        results := results[i := TaskResult(results[i].id, false, Some(stub(results[i].id)))];
      }
      assert results[i] == all[i];
      if size + results[i].size.value > MAX_BATCH { break; }
      batch := batch + [results[i]];
      size := size + results[i].size.value;
      i := i + 1;
    }
    assert batch == all[..i];
  }

  /** One more result is taken exactly while the batch is not yet full. */
  lemma FitStep(lengths: seq<nat>, i: nat)
    requires i < |lengths| && i <= FitCount(lengths, 0)
    ensures i == FitCount(lengths, 0) <==> Sum(lengths[..i]) + lengths[i] > MAX_BATCH
    ensures Sum(lengths[..i + 1]) == Sum(lengths[..i]) + lengths[i]
  {
    FitCountFrom(lengths, 0, i);
    assert lengths[i..][0] == lengths[i];
    assert lengths[..i + 1] == lengths[..i] + [lengths[i]];
    SumAppend(lengths[..i], lengths[i]);
  }

  /** The loop that splits the pending results by a list of identifiers. */
  method Split(ids: seq<string>, results: seq<TaskResult>, ghost queue: seq<Pending>)
      returns (remaining: seq<TaskResult>, successful: seq<string>)
    requires results == Results(queue)
    ensures remaining == Results(Remaining(queue, set x | x in ids))
    ensures forall x :: x in successful <==> exists r :: r in results && r.id == x && r.id in ids && r.success
  {
    var ack := set x | x in ids;
    remaining, successful := [], [];
    for i := 0 to |results|
      invariant remaining == Results(Remaining(queue[..i], ack))
      invariant forall x :: x in successful <==> exists r :: r in results[..i] && r.id == x && r.id in ids && r.success
    {
      var result := results[i];
      assert queue[..i + 1][..i] == queue[..i];
      assert results[..i + 1] == results[..i] + [result];
      if result.id !in ack {
        remaining := remaining + [result];
      } else if result.success {
        successful := successful + [result.id];
      }
    }
    assert queue[..|queue|] == queue && results[..|results|] == results;
  }

  // ----- Runs -----

  /** The pending results of a client: everything produced, what still waits, what acknowledgements
      have covered, the places that the last report carried, and whether a stream is open. */
  datatype Ledger = Ledger(
    produced: seq<TaskResult>, queue: seq<Pending>, covered: set<nat>, reported: seq<nat>, streaming: bool)

  /** One event: a report sent, the answer to one with the results of its commands, a stream opened by
      the answer, a reply or a batch inside a stream, a result produced there, a stream closed, and
      anything lost or without effect. */
  datatype Event =
    | Reported(batch: seq<TaskResult>)
    | Replied(error: bool, answers: seq<TaskResult>)
    | Opened(error: bool, started: bool, batch: seq<TaskResult>)
    | StreamReplied(ids: seq<string>, alive: bool, batch: seq<TaskResult>)
    | StreamSent(alive: bool, batch: seq<TaskResult>)
    | Produced(result: TaskResult)
    | Closed
    | Idle

  function IdSet(ids: seq<string>): set<string> {
    set x | x in ids
  }

  /** As many results are dropped as the last report carried, whichever they are. */
  function Dropped(l: Ledger): Ledger {
    var n := |l.reported|;
    if n > |l.queue| then l.(reported := [])
    else l.(queue := l.queue[n..], covered := l.covered + Indices(l.queue[..n]), reported := [])
  }

  function Added(l: Ledger, r: TaskResult): Ledger {
    l.(produced := l.produced + [r], queue := l.queue + [Pending(|l.produced|, r)])
  }

  function AddedAll(l: Ledger, rs: seq<TaskResult>): (l2: Ledger)
    ensures l2.covered == l.covered && l2.reported == l.reported && l2.streaming == l.streaming
  {
    if rs == [] then l else Added(AddedAll(l, rs[..|rs| - 1]), rs[|rs| - 1])
  }

  lemma AddedOneMore(l: Ledger, rs: seq<TaskResult>, r: TaskResult)
    ensures AddedAll(l, rs + [r]) == Added(AddedAll(l, rs), r)
  {
    assert (rs + [r])[..|rs|] == rs;
  }

  function Struck(l: Ledger, ids: set<string>): Ledger {
    l.(queue := Remaining(l.queue, ids), covered := l.covered + Named(l.queue, ids))
  }

  /** The batch holds the first results, each of which can be sent. */
  predicate Sends(batch: seq<TaskResult>, queue: seq<Pending>) {
    batch <= Results(queue) && forall r | r in batch :: Fitting(r)
  }

  /** Reports are sent and answered outside of a stream only. */
  ghost predicate Step(l: Ledger, e: Event, l2: Ledger) {
    match e
    case Reported(batch) =>
      && !l.streaming && Reshaped(l.queue, l2.queue) && Sends(batch, l2.queue)
      && l2 == l.(queue := l2.queue, reported := Places(l.queue)[..|batch|])
    case Replied(error, answers) => !l.streaming && l2 == if error then l else AddedAll(Dropped(l), answers)
    case Opened(error, started, batch) =>
      && !l.streaming && Sends(batch, l2.queue)
      && if error then l2 == l
         else Reshaped(Dropped(l).queue, l2.queue) && l2 == Dropped(l).(queue := l2.queue, streaming := started)
    case StreamReplied(ids, alive, batch) =>
      var after := Struck(l, IdSet(ids));
      && l.streaming && Reshaped(after.queue, l2.queue) && Sends(batch, l2.queue)
      && l2 == after.(queue := l2.queue, streaming := alive)
    case StreamSent(alive, batch) =>
      && l.streaming && Reshaped(l.queue, l2.queue) && Sends(batch, l2.queue)
      && l2 == l.(queue := l2.queue, streaming := alive)
    case Produced(result) => l2 == Added(l, result)
    case Closed => l2 == l.(streaming := false)
    case Idle => l2 == l
  }

  /** Nothing is lost, what was last reported still stands first, and nothing is reported while a
      stream is open. */
  ghost predicate Inv(l: Ledger) {
    && Conserved(l.produced, l.queue, l.covered)
    && l.reported <= Places(l.queue) && (l.streaming ==> l.reported == [])
  }

  ghost predicate Run(ls: seq<Ledger>, es: seq<Event>) {
    |ls| == |es| + 1 && Inv(ls[0]) && forall i {:trigger StepAt(ls, es, i)} :: StepAt(ls, es, i)
  }

  ghost predicate StepAt(ls: seq<Ledger>, es: seq<Event>, i: int) {
    0 <= i < |es| && |ls| == |es| + 1 ==> Step(ls[i], es[i], ls[i + 1])
  }

  lemma DroppingKeepsInv(l: Ledger)
    requires Inv(l)
    ensures Inv(Dropped(l)) && Dropped(l).covered == l.covered + set k | k in l.reported
  {
    PrefixConserves(l.produced, l.queue, l.covered, |l.reported|);
    PlacesOfPrefix(l.queue, l.reported);
  }

  lemma ReshapingKeepsInv(l: Ledger, after: seq<Pending>)
    requires Inv(l) && Reshaped(l.queue, after)
    ensures Inv(l.(queue := after)) && Places(after) == Places(l.queue)
  {
    ReshapeConserves(l.produced, l.queue, l.covered, after);
  }

  lemma AddingKeepsInv(l: Ledger, r: TaskResult)
    requires Inv(l)
    ensures Inv(Added(l, r))
  {
    ProductionConserves(l.produced, l.queue, l.covered, r);
    assert Places(Added(l, r).queue) == Places(l.queue) + [|l.produced|];
  }

  lemma {:induction false} AddingAllKeepsInv(l: Ledger, rs: seq<TaskResult>)
    requires Inv(l)
    ensures Inv(AddedAll(l, rs))
  {
    if rs != [] {
      AddingAllKeepsInv(l, rs[..|rs| - 1]);
      AddingKeepsInv(AddedAll(l, rs[..|rs| - 1]), rs[|rs| - 1]);
    }
  }

  lemma StepKeepsInv(l: Ledger, e: Event, l2: Ledger)
    requires Inv(l) && Step(l, e, l2)
    ensures Inv(l2)
  {
    match e
    case Reported(batch) => ReshapingKeepsInv(l, l2.queue);
    case Replied(error, answers) =>
      DroppingKeepsInv(l);
      AddingAllKeepsInv(Dropped(l), answers);
    case Opened(error, started, batch) =>
      if !error {
        DroppingKeepsInv(l);
        ReshapingKeepsInv(Dropped(l), l2.queue);
      }
    case StreamReplied(ids, alive, batch) =>
      var after := Struck(l, IdSet(ids));
      NamingConserves(l.produced, l.queue, l.covered, IdSet(ids));
      ReshapingKeepsInv(after, l2.queue);
    case StreamSent(alive, batch) => ReshapingKeepsInv(l, l2.queue);
    case Produced(result) => AddingKeepsInv(l, result);
    case Closed =>
    case Idle =>
  }

  lemma {:induction false} RunsKeepInv(ls: seq<Ledger>, es: seq<Event>, i: nat)
    requires Run(ls, es) && i < |ls|
    ensures Inv(ls[i])
  {
    if i > 0 {
      RunsKeepInv(ls, es, i - 1);
      assert StepAt(ls, es, i - 1);
      StepKeepsInv(ls[i - 1], es[i - 1], ls[i]);
    }
  }

  /** The event acknowledges the result produced as number `k`: it answers the report that carried
      it, or it names its identifier. */
  ghost predicate Acknowledges(l: Ledger, e: Event, k: nat) {
    || ((e.Replied? || e.Opened?) && !e.error && k in l.reported)
    || (e.StreamReplied? && k < |l.produced| && l.produced[k].id in e.ids && Waits(l.queue, k))
  }

  /** A result leaves the queue only with an event that acknowledges it. */
  lemma CoveringAcknowledges(l: Ledger, e: Event, l2: Ledger, k: nat)
    requires Inv(l) && Step(l, e, l2)
    ensures k in l2.covered <==> k in l.covered || Acknowledges(l, e, k)
  {
    if (e.Replied? || e.Opened?) && !e.error {
      DroppingKeepsInv(l);
    }
    if e.StreamReplied? {
      NamedIsWaiting(l, e.ids, k);
    }
  }

  lemma NamedIsWaiting(l: Ledger, ids: seq<string>, k: nat)
    requires Inv(l)
    ensures k in Named(l.queue, IdSet(ids)) <==> k < |l.produced| && l.produced[k].id in ids && Waits(l.queue, k)
  {
    forall p | p in l.queue && p.index == k ensures k < |l.produced| && l.produced[k].id == p.result.id {
      assert Genuine(l.produced, l.queue, p);
    }
  }

  /** The last report before the event `j` carried the result produced as number `k`. */
  ghost predicate CarriedBefore(ls: seq<Ledger>, es: seq<Event>, j: nat, k: nat)
    requires |ls| == |es| + 1 && j <= |es|
  {
    exists m | 0 <= m < j :: LastReport(es, m, j) && Carries(es[m].batch, ls[m + 1], k)
  }

  /** The event `m` is the last report before the event `j`. */
  predicate LastReport(es: seq<Event>, m: nat, j: nat)
    requires m < j <= |es|
  {
    es[m].Reported? && forall n | m < n < j :: !es[n].Reported?
  }

  ghost predicate Carries(batch: seq<TaskResult>, l: Ledger, k: nat) {
    && k < |l.produced|
    && exists x | 0 <= x < |batch| <= |l.queue| ::
         l.queue[x] == Pending(k, batch[x]) && SentFor(l.produced[k], batch[x])
  }

  ghost function BatchOf(e: Event): seq<TaskResult> {
    match e
    case Reported(batch) => batch
    case Opened(_, _, batch) => batch
    case StreamReplied(_, _, batch) => batch
    case StreamSent(_, batch) => batch
    case Replied(_, _) => []
    case Produced(_) => []
    case Closed => []
    case Idle => []
  }

  /** Whatever is sent, in a report or over a stream, is in its place the result that was produced,
      exactly as it was produced if that can be sent, and otherwise the report that it could not. */
  lemma SentIsWhatWasProduced(l: Ledger, e: Event, l2: Ledger, x: nat)
    requires Inv(l) && Step(l, e, l2) && x < |BatchOf(e)|
    ensures x < |l2.queue|
    ensures var k := l2.queue[x].index; k < |l2.produced| && SentFor(l2.produced[k], BatchOf(e)[x])
  {
    StepKeepsInv(l, e, l2);
    assert Sends(BatchOf(e), l2.queue);
    var p := l2.queue[x];
    assert Results(l2.queue)[x] == p.result && BatchOf(e)[x] in BatchOf(e);
    assert p in l2.queue && Genuine(l2.produced, l2.queue, p);
  }

  lemma {:induction false} ReportedWasCarried(ls: seq<Ledger>, es: seq<Event>, j: nat, k: nat)
    requires Run(ls, es) && ls[0].reported == [] && j <= |es| && k in ls[j].reported
    ensures CarriedBefore(ls, es, j, k)
  {
    ReportedFrom(ls, es, j, k);
    if es[j - 1].Reported? {
      assert LastReport(es, j - 1, j);
    } else {
      ReportedWasCarried(ls, es, j - 1, k);
      var m :| 0 <= m < j - 1 && LastReport(es, m, j - 1) && Carries(es[m].batch, ls[m + 1], k);
      assert LastReport(es, m, j);
    }
  }

  lemma ReportedFrom(ls: seq<Ledger>, es: seq<Event>, j: nat, k: nat)
    requires Run(ls, es) && ls[0].reported == [] && j <= |es| && k in ls[j].reported
    ensures 0 < j && if es[j - 1].Reported? then Carries(es[j - 1].batch, ls[j], k) else k in ls[j - 1].reported
  {
    assert StepAt(ls, es, j - 1);
    if es[j - 1].Reported? {
      RunsKeepInv(ls, es, j - 1);
      ReportCarries(ls[j - 1], es[j - 1].batch, ls[j], k);
    }
  }

  lemma ReportCarries(l: Ledger, batch: seq<TaskResult>, l2: Ledger, k: nat)
    requires Inv(l) && Step(l, Reported(batch), l2) && k in l2.reported
    ensures Carries(batch, l2, k)
  {
    var x :| 0 <= x < |l2.reported| && l2.reported[x] == k;
    SentIsWhatWasProduced(l, Reported(batch), l2, x);
    assert batch[x] == Results(l2.queue)[x];
  }

  /** The event `j` acknowledges the result, and if it does so by count then as the answer to a report,
      the last one before it, that carried this very result. */
  ghost predicate AcknowledgedAt(ls: seq<Ledger>, es: seq<Event>, j: nat, k: nat)
    requires |ls| == |es| + 1 && j < |es|
  {
    Acknowledges(ls[j], es[j], k) && (es[j].Replied? || es[j].Opened? ==> CarriedBefore(ls, es, j, k))
  }

  ghost predicate Acknowledged(ls: seq<Ledger>, es: seq<Event>, i: nat, k: nat)
    requires |ls| == |es| + 1 && i <= |es|
  {
    exists j | 0 <= j < i :: AcknowledgedAt(ls, es, j, k)
  }

  lemma AcknowledgedAtIff(ls: seq<Ledger>, es: seq<Event>, j: nat, k: nat)
    requires Run(ls, es) && ls[0].reported == [] && j < |es|
    ensures AcknowledgedAt(ls, es, j, k) <==> k in ls[j + 1].covered && k !in ls[j].covered
  {
    RunsKeepInv(ls, es, j);
    assert StepAt(ls, es, j);
    CoveringAcknowledges(ls[j], es[j], ls[j + 1], k);
    if Acknowledges(ls[j], es[j], k) {
      AcknowledgedWaits(ls[j], es[j], k);
      if es[j].Replied? || es[j].Opened? {
        ReportedWasCarried(ls, es, j, k);
      }
    }
  }

  lemma AcknowledgedWaits(l: Ledger, e: Event, k: nat)
    requires Inv(l) && Acknowledges(l, e, k)
    ensures Waits(l.queue, k) && k !in l.covered
  {
    if k in l.reported {
      var x :| 0 <= x < |l.reported| && l.reported[x] == k;
      assert Places(l.queue)[x] == k && l.queue[x] in l.queue;
      assert Genuine(l.produced, l.queue, l.queue[x]);
    }
    assert Accounted(l.produced, l.queue, l.covered, k);
  }

  lemma {:induction false} CoveredWasAcknowledged(ls: seq<Ledger>, es: seq<Event>, i: nat, k: nat)
    requires Run(ls, es) && ls[0].covered == {} && ls[0].reported == [] && i < |ls|
    ensures k in ls[i].covered <==> Acknowledged(ls, es, i, k)
  {
    if i > 0 {
      CoveredWasAcknowledged(ls, es, i - 1, k);
      AcknowledgedAtIff(ls, es, i - 1, k);
      if k in ls[i - 1].covered { CoveredStays(ls, es, i - 1, i, k); }
    }
  }

  lemma {:induction false} CoveredStays(ls: seq<Ledger>, es: seq<Event>, i: nat, j: nat, k: nat)
    requires Run(ls, es) && i <= j < |ls| && k in ls[i].covered
    ensures k in ls[j].covered
  {
    if i < j {
      CoveredStays(ls, es, i, j - 1, k);
      RunsKeepInv(ls, es, j - 1);
      assert StepAt(ls, es, j - 1);
      CoveringAcknowledges(ls[j - 1], es[j - 1], ls[j], k);
    }
  }

  /** At every point of every run - with errors, lost replies, new connections, streams and commands
      in any mix - a result that was produced waits unless one event has acknowledged it, and no
      event acknowledges it again. */
  lemma ResultsAreNeverLost(ls: seq<Ledger>, es: seq<Event>, i: nat, k: nat)
    requires Run(ls, es) && ls[0] == Ledger([], [], {}, [], false) && i < |ls| && k < |ls[i].produced|
    ensures Waits(ls[i].queue, k) <==> !Acknowledged(ls, es, i, k)
    ensures forall j, m | 0 <= j < m < i :: !(AcknowledgedAt(ls, es, j, k) && AcknowledgedAt(ls, es, m, k))
  {
    RunsKeepInv(ls, es, i);
    assert Accounted(ls[i].produced, ls[i].queue, ls[i].covered, k);
    CoveredWasAcknowledged(ls, es, i, k);
    forall j, m | 0 <= j < m < i && AcknowledgedAt(ls, es, j, k) ensures !AcknowledgedAt(ls, es, m, k) {
      AcknowledgedAtIff(ls, es, j, k);
      CoveredStays(ls, es, j + 1, m, k);
      AcknowledgedAtIff(ls, es, m, k);
    }
  }

  lemma RunExtends(ls: seq<Ledger>, es: seq<Event>, e: Event, l: Ledger)
    requires Run(ls, es) && Step(ls[|es|], e, l)
    ensures Run(ls + [l], es + [e])
  {
    var ls', es' := ls + [l], es + [e];
    forall i ensures StepAt(ls', es', i) {
      assert StepAt(ls, es, i);
    }
  }

  lemma {:induction false} RemainingNone(queue: seq<Pending>)
    ensures Remaining(queue, {}) == queue
  {
    if queue != [] {
      RemainingNone(queue[..|queue| - 1]);
    }
  }

  lemma NamesNothing(l: Ledger, ids: seq<string>)
    requires ids == []
    ensures Struck(l, IdSet(ids)) == l && NoneNamed(l.queue, IdSet(ids))
  {
    assert IdSet(ids) == {};
    RemainingNone(l.queue);
    assert Named(l.queue, {}) == {};
  }

  lemma RemainingResults(queue: seq<Pending>, ids: set<string>)
    requires Ordered(queue)
    ensures forall r | r in Results(Remaining(queue, ids)) :: r in Results(queue)
  {
    RemainingFacts(queue, ids);
    var rest := Remaining(queue, ids);
    forall r | r in Results(rest) ensures r in Results(queue) {
      var i :| 0 <= i < |rest| && rest[i].result == r;
      assert rest[i] in rest;
      var j :| 0 <= j < |queue| && queue[j] == rest[i];
      assert Results(queue)[j] == r;
    }
  }

  // ----- The client -----

  /** A command as the client sees it: its identifier, the result its execution would
      give, and whether that execution leaves before it is recorded. */
  datatype Command = Command(id: string, outcome: TaskResult, unrecorded: bool)

  /** The refusal of a command without an identifier, which takes 60 bytes. */
  const NAMELESS := TaskResult("", false, Some(60))

  /** The command runs: it has an identifier that is not in the window. */
  predicate Runs(history: seq<Entry>, c: Command) {
    c.id != "" && c.id !in Ids(Kept(history))
  }

  function Recorded(history: seq<Entry>, c: Command): seq<Entry> {
    if Runs(history, c) && !c.unrecorded then history + [Entry(c.id, c.outcome)] else history
  }

  /** The result of the latest execution of `id`. */
  function LastResult(es: seq<Entry>, id: string): TaskResult
    requires id in Ids(es)
  {
    var last := es[|es| - 1];
    if last.id == id then last.result
    else
      assert Ids(es)[..|es| - 1] == Ids(es[..|es| - 1]);
      LastResult(es[..|es| - 1], id)
  }

  /** What the client answers to a command, from the history of executions alone. */
  function Answer(history: seq<Entry>, c: Command): TaskResult {
    if c.id == "" then NAMELESS else if Runs(history, c) then c.outcome else LastResult(Kept(history), c.id)
  }

  function HistoryAfter(history: seq<Entry>, cs: seq<Command>): seq<Entry> {
    if cs == [] then history
    else Recorded(HistoryAfter(history, cs[..|cs| - 1]), cs[|cs| - 1])
  }

  /** The answers to a list of commands, each in the light of those before it. */
  function Answers(history: seq<Entry>, cs: seq<Command>): seq<TaskResult> {
    if cs == [] then []
    else Answers(history, cs[..|cs| - 1]) + [Answer(HistoryAfter(history, cs[..|cs| - 1]), cs[|cs| - 1])]
  }

  /** A command that is delivered again right away runs a second time exactly when its first
      execution left no record, or left one that exceeds the whole cache. */
  lemma RepeatRunsAgainIff(history: seq<Entry>, c: Command)
    requires c.id != ""
    ensures Runs(Recorded(history, c), c) <==> Runs(history, c) && (c.unrecorded || Length(c.outcome) > MAX_BYTES)
    ensures !Runs(Recorded(history, c), c) ==> Answer(Recorded(history, c), c) == Answer(history, c)
  {
    if Runs(history, c) && !c.unrecorded {
      var e := Entry(c.id, c.outcome);
      var after := history + [e];
      var kept := Kept(after);
      assert after[|history|..] == [e];
      KeptIsLongestFit(after, |history|);
      if kept != [] {
        assert kept == kept[..|kept| - 1] + [e];
        BytesAppend(kept[..|kept| - 1], e);
        assert Ids(kept)[|kept| - 1] == c.id;
      }
    }
  }

  lemma OneMoreAnswer(history: seq<Entry>, cs: seq<Command>, i: nat, results: seq<TaskResult>, l: Ledger)
    requires i < |cs|
    ensures var before := HistoryAfter(history, cs[..i]);
      var answers, answer := Answers(history, cs[..i]), Answer(before, cs[i]);
      && HistoryAfter(history, cs[..i + 1]) == Recorded(before, cs[i])
      && results + Answers(history, cs[..i + 1]) == results + answers + [answer]
      && AddedAll(l, Answers(history, cs[..i + 1])) == Added(AddedAll(l, answers), answer)
  {
    assert cs[..i + 1][..i] == cs[..i];
    AddedOneMore(l, Answers(history, cs[..i]), Answer(HistoryAfter(history, cs[..i]), cs[i]));
  }

  /** What the program does and what happens to it: it reports, takes a reply, opens a stream, takes a
      reply or sends a batch inside one, runs a command of the stream or of a direct request, the
      stream ends, a message is lost. */
  datatype Operation =
    | SendReport
    | TakeReply(error: bool, refused: bool, commands: seq<Command>)
    | OpenStream(error: bool, refused: bool, moved: bool, fails: bool)
    | TakeStreamReply(ids: seq<string>, fails: bool)
    | SendBatch(fails: bool)
    | RunQueued(c: Command)
    | RunDirectly(c: Command)
    | CloseStream
    | Lose

  lemma {:induction false} SeenIsLast(es: seq<Entry>, id: string)
    requires id in Ids(es)
    ensures id in SeenIn(es) && SeenIn(es)[id] == LastResult(es, id)
  {
    var front, last := es[..|es| - 1], es[|es| - 1];
    assert es == front + [last] && Ids(es) == Ids(front) + [last.id];
    if last.id != id {
      SeenIsLast(front, id);
    }
  }

  class Client {
    const stub: string -> nat
    var seen: map<string, TaskResult>
    var order: seq<string>
    var sizes: map<string, nat>
    var bytes: int
    var results: seq<TaskResult>
    var sentCount: nat
    var inFlight: bool
    ghost var history: seq<Entry>
    ghost var ledger: Ledger

    ghost predicate CacheOk()
      reads this`seen, this`order, this`sizes, this`bytes, this`history
    {
      Tables(Kept(history), order, seen, sizes, bytes)
    }

    ghost predicate QueueOk()
      reads this`results, this`sentCount, this`ledger
    {
      && results == Results(ledger.queue) && sentCount == |ledger.reported|
      && Conserved(ledger.produced, ledger.queue, ledger.covered)
    }

    /** What was last reported by count is still what stands first in the queue. */
    ghost predicate Counted()
      reads this`ledger
    {
      ledger.reported <= Places(ledger.queue)
    }

    constructor (stub: string -> nat)
      ensures CacheOk() && QueueOk() && Inv(ledger)
      ensures history == [] && ledger == Ledger([], [], {}, [], false) && this.stub == stub
    {
      this.stub := stub;
      seen, order, sizes, bytes, results, sentCount, inFlight := map[], [], map[], 0, [], 0, false;
      history, ledger := [], Ledger([], [], {}, [], false);
    }

    /** Runs a command unless its result is still known. */
    method Execute(c: Command) returns (r: TaskResult, ran: bool)
      requires CacheOk()
      modifies this`seen, this`order, this`sizes, this`bytes, this`history
      ensures CacheOk()
      ensures ran <==> Runs(old(history), c)
      ensures r == Answer(old(history), c) && history == Recorded(old(history), c)
    {
      ran := false;
      if c.id == "" { return NAMELESS, false; }
      SeenFacts(Kept(history), c.id);
      if c.id in seen {
        SeenIsLast(Kept(history), c.id);
        return seen[c.id], false;
      }
      r, ran := c.outcome, true;
      if c.unrecorded { return; }
      Remember(Entry(c.id, r));
    }

    /** Records an execution and evicts from the front while the cache is over a limit. */
    method Remember(e: Entry)
      requires CacheOk() && e.id !in seen
      modifies this`seen, this`order, this`sizes, this`bytes, this`history
      ensures CacheOk() && history == old(history) + [e]
    {
      KeptOfKept(history, e);
      TablesAdd(Kept(history), order, seen, sizes, bytes, e);
      ghost var window := Kept(history) + [e];
      history := history + [e];
      seen := seen[e.id := e.result];
      sizes := sizes[e.id := Length(e.result)];
      bytes := bytes + Length(e.result);
      order := order + [e.id];
      order, seen, sizes, bytes := Evict(window, order, seen, sizes, bytes);
    }

    method Produce(r: TaskResult)
      requires QueueOk()
      modifies this`results, this`ledger
      ensures QueueOk() && ledger == Added(old(ledger), r) && results == old(results) + [r]
    {
      ProductionConserves(ledger.produced, ledger.queue, ledger.covered, r);
      ledger := Added(ledger, r);
      results := results + [r];
    }

    method ResultBatch() returns (batch: seq<TaskResult>)
      requires QueueOk()
      modifies this`results, this`ledger
      ensures QueueOk() && batch == Batch(stub, old(results)) && Sends(batch, ledger.queue)
      ensures Reshaped(old(ledger).queue, ledger.queue) && ledger == old(ledger).(queue := ledger.queue)
    {
      batch, results := BuildBatch(stub, results);
      ghost var after := Reshape(ledger.queue, results);
      assert Results(after) == results;
      ReshapeConserves(ledger.produced, ledger.queue, ledger.covered, after);
      ledger := ledger.(queue := after);
    }

    /** A report acknowledged by count: it remembers how many results it carried. */
    method Report() returns (batch: seq<TaskResult>)
      requires QueueOk()
      modifies this`results, this`sentCount, this`ledger
      ensures QueueOk() && Counted() && batch == Batch(stub, old(results)) && Sends(batch, ledger.queue)
      ensures Reshaped(old(ledger).queue, ledger.queue)
      ensures ledger == old(ledger).(queue := ledger.queue, reported := Places(old(ledger).queue)[..|batch|])
    {
      batch := ResultBatch();
      sentCount := |batch|;
      ledger := ledger.(reported := Places(ledger.queue)[..sentCount]);
      assert Places(ledger.queue) == Places(old(ledger).queue);
    }

    /** A reply to a report; an error reply acknowledges nothing. As many results are dropped as the
        report carried, and these are the ones it carried if they still stand first. `refused` is a
        change of the connection, made once nothing waits, that cannot be stored. */
    method Acknowledge(error: bool, refused: bool) returns (ok: bool)
      requires QueueOk()
      modifies this`results, this`sentCount, this`ledger
      ensures QueueOk() && ledger == if error then old(ledger) else Dropped(old(ledger))
      ensures ok <==> !error && (results != [] || !refused)
      ensures !error ==> Counted()
      ensures !error && old(Counted()) ==>
        && results == old(results)[old(sentCount)..]
        && ledger.covered == old(ledger).covered + (set k | k in old(ledger).reported)
    {
      if error { return false; }
      if Counted() { PlacesOfPrefix(ledger.queue, ledger.reported); }
      if sentCount <= |results| {
        PrefixConserves(ledger.produced, ledger.queue, ledger.covered, sentCount);
        results := results[sentCount..];
      }
      sentCount, ledger := 0, Dropped(ledger);
      ok := |results| > 0 || !refused;
    }

    /** Acknowledgement by identifier. An outstanding report by count stays in line with the queue
        exactly when it carried none of the identifiers. */
    method AcknowledgeResults(ids: seq<string>) returns (successful: seq<string>)
      requires QueueOk()
      modifies this`results, this`ledger
      ensures QueueOk() && ledger == Struck(old(ledger), IdSet(ids))
      ensures forall x :: x in successful <==> exists r :: r in old(results) && r.id == x && r.id in ids && r.success
      ensures old(Counted()) ==> (Counted() <==> NoneNamed(old(ledger).queue[..sentCount], IdSet(ids)))
    {
      var remaining;
      remaining, successful := Split(ids, results, ledger.queue);
      NamingConserves(ledger.produced, ledger.queue, ledger.covered, IdSet(ids));
      if Counted() { CountedAfterNamingIff(ledger.queue, IdSet(ids), ledger.reported); }
      ledger := Struck(ledger, IdSet(ids));
      results := remaining;
    }

    ghost predicate StubsFit()
      reads this`results
    {
      forall r | r in results :: stub(r.id) <= MAX_BATCH
    }

    /** Sends a batch over the stream unless one is unanswered; a failed send ends the stream.
        Afterwards a batch is under way or nothing is pending. */
    method SendResults(fails: bool) returns (ok: bool, batch: seq<TaskResult>)
      requires QueueOk()
      modifies this`results, this`ledger, this`inFlight
      ensures QueueOk() && Sends(batch, ledger.queue)
      ensures Reshaped(old(ledger).queue, ledger.queue) && ledger == old(ledger).(queue := ledger.queue)
      ensures old(inFlight) ==> ok && inFlight && batch == [] && results == old(results)
      ensures !old(inFlight) ==> batch == Batch(stub, old(results)) && (ok <==> batch == [] || !fails)
      ensures inFlight == (old(inFlight) || (ok && batch != []))
      ensures ok && old(StubsFit()) ==> inFlight || results == []
    {
      if inFlight {
        assert Reshaped(ledger.queue, ledger.queue);
        return true, [];
      }
      BatchFacts(stub, results);
      batch := ResultBatch();
      if batch == [] { return true, []; }
      ok := !fails;
      inFlight := ok;
    }

    /** A stream begins with the reply to the report that opened it; `moved` is a connection that is
        no longer the configured one. */
    method BeginStream(error: bool, refused: bool, moved: bool, fails: bool) returns (ok: bool, batch: seq<TaskResult>)
      requires QueueOk()
      modifies this`results, this`sentCount, this`ledger, this`inFlight
      ensures QueueOk() && Sends(batch, ledger.queue)
      ensures error ==> !ok && results == old(results) && ledger == old(ledger)
      ensures !error ==>
        && Reshaped(Dropped(old(ledger)).queue, ledger.queue)
        && ledger == Dropped(old(ledger)).(queue := ledger.queue, streaming := ok) && Counted()
      ensures ok <==> !error && (Dropped(old(ledger)).queue != [] || !refused) && !moved && (batch == [] || !fails)
      ensures !error && (Dropped(old(ledger)).queue != [] || !refused) && !moved ==>
        batch == Batch(stub, Results(Dropped(old(ledger)).queue))
      ensures ok && old(StubsFit()) ==> inFlight || results == []
    {
      ghost var before := results;
      ok := Acknowledge(error, refused);
      batch := [];
      if error { return; }
      assert forall r | r in results :: r in before;
      assert Reshaped(ledger.queue, ledger.queue);
      if ok && !moved {
        inFlight := false;
        ok, batch := SendResults(fails);
      } else {
        ok := false;
      }
      ledger := ledger.(streaming := ok);
    }

    /** A reply inside a stream: identifiers it names are done, and the next batch follows. */
    method StreamReply(ids: seq<string>, fails: bool) returns (ok: bool, batch: seq<TaskResult>)
      requires QueueOk()
      modifies this`results, this`ledger, this`inFlight
      ensures QueueOk() && Sends(batch, ledger.queue)
      ensures Reshaped(Struck(old(ledger), IdSet(ids)).queue, ledger.queue)
      ensures ledger ==
        Struck(old(ledger), IdSet(ids)).(queue := ledger.queue, streaming := old(ledger).streaming && ok)
      ensures old(Counted()) ==> (Counted() <==> NoneNamed(old(ledger).queue[..sentCount], IdSet(ids)))
      ensures ids == [] && old(inFlight) ==> ok && batch == [] && inFlight
      ensures ids != [] ==> batch == Batch(stub, Results(Remaining(old(ledger).queue, IdSet(ids))))
      ensures ok && ids != [] && old(StubsFit()) ==> inFlight || results == []
    {
      TakeNames(ids);
      ok, batch := SendResults(fails);
      assert Places(ledger.queue) == Places(Struck(old(ledger), IdSet(ids)).queue);
      ledger := ledger.(streaming := ledger.streaming && ok);
    }

    /** The identifiers that a reply names, if any: they answer the batch under way. */
    method TakeNames(ids: seq<string>)
      requires QueueOk()
      modifies this`results, this`ledger, this`inFlight
      ensures QueueOk() && ledger == Struck(old(ledger), IdSet(ids)) && inFlight == (old(inFlight) && ids == [])
      ensures old(StubsFit()) ==> StubsFit()
      ensures old(Counted()) ==> (Counted() <==> NoneNamed(old(ledger).queue[..sentCount], IdSet(ids)))
    {
      ghost var l := ledger;
      if ids != [] {
        var _ := AcknowledgeResults(ids);
        RemainingResults(l.queue, IdSet(ids));
        inFlight := false;
      } else {
        NamesNothing(l, ids);
      }
    }

    /** A command and the result it leaves pending. */
    method RunCommand(c: Command)
      requires CacheOk() && QueueOk()
      modifies this`seen, this`order, this`sizes, this`bytes, this`history, this`results, this`ledger
      ensures CacheOk() && QueueOk() && history == Recorded(old(history), c)
      ensures results == old(results) + [Answer(old(history), c)]
      ensures ledger == Added(old(ledger), Answer(old(history), c))
    {
      var r, ran := Execute(c);
      Produce(r);
    }

    /** Runs commands in order; every one of them yields one result. */
    method RunCommands(commands: seq<Command>)
      requires CacheOk() && QueueOk()
      modifies this`seen, this`order, this`sizes, this`bytes, this`history, this`results, this`ledger
      ensures CacheOk() && QueueOk()
      ensures results == old(results) + Answers(old(history), commands)
      ensures ledger == AddedAll(old(ledger), Answers(old(history), commands))
      ensures history == HistoryAfter(old(history), commands)
    {
      for i := 0 to |commands|
        invariant CacheOk() && QueueOk() && history == HistoryAfter(old(history), commands[..i])
        invariant results == old(results) + Answers(old(history), commands[..i])
        invariant ledger == AddedAll(old(ledger), Answers(old(history), commands[..i]))
      {
        OneMoreAnswer(old(history), commands, i, old(results), old(ledger));
        RunCommand(commands[i]);
      }
      assert commands[..|commands|] == commands;
    }

    /** One reply of the polling transports: acknowledge, then run its commands. */
    method Accept(error: bool, refused: bool, commands: seq<Command>) returns (ok: bool)
      requires CacheOk() && QueueOk()
      modifies this`seen, this`order, this`sizes, this`bytes, this`history, this`results, this`sentCount, this`ledger
      ensures CacheOk() && QueueOk()
      ensures error ==> !ok && results == old(results) && history == old(history) && ledger == old(ledger)
      ensures !error ==> sentCount == 0 && Counted()
      ensures !error && !ok ==> refused && history == old(history) && ledger == Dropped(old(ledger))
      ensures ok ==> !error && history == HistoryAfter(old(history), commands)
      ensures ok ==> ledger == AddedAll(Dropped(old(ledger)), Answers(old(history), commands))
    {
      ok := Acknowledge(error, refused);
      if ok { RunCommands(commands); }
    }

    /** One step of the program. It reports and takes replies only while no stream is open, and what
        else arrives out of turn is lost. */
    method Perform(op: Operation, streaming: bool) returns (open: bool, ghost e: Event)
      requires CacheOk() && QueueOk() && streaming == ledger.streaming
      modifies this
      ensures CacheOk() && QueueOk() && open == ledger.streaming
      ensures Step(old(ledger), e, ledger)
    {
      open, e := streaming, Idle;
      match op {
        case SendReport => if !streaming { open, e := Exchange(op); }
        case TakeReply(_, _, _) => if !streaming { open, e := Exchange(op); }
        case OpenStream(_, _, _, _) => if !streaming { open, e := Exchange(op); }
        case TakeStreamReply(ids, fails) =>
          if streaming {
            var ok, batch := StreamReply(ids, fails);
            open, e := ok, StreamReplied(ids, ok, batch);
          }
        case SendBatch(fails) =>
          if streaming {
            var ok, batch := SendResults(fails);
            ledger := ledger.(streaming := ok);
            open, e := ok, StreamSent(ok, batch);
          }
        case RunQueued(c) =>
          ghost var before := history;
          RunCommand(c);
          e := Produced(Answer(before, c));
        case RunDirectly(c) =>
          var r, ran := Execute(c);
        case CloseStream =>
          ledger := ledger.(streaming := false);
          open, e := false, Closed;
        case Lose =>
      }
    }

    /** What the program does while no stream is open. */
    method Exchange(op: Operation) returns (open: bool, ghost e: Event)
      requires CacheOk() && QueueOk() && !ledger.streaming && (op.SendReport? || op.TakeReply? || op.OpenStream?)
      modifies this
      ensures CacheOk() && QueueOk() && open == ledger.streaming
      ensures Step(old(ledger), e, ledger)
    {
      open := false;
      match op {
        case SendReport =>
          var batch := Report();
          e := Reported(batch);
        case TakeReply(error, refused, commands) =>
          ghost var before := history;
          var ok := Accept(error, refused, commands);
          e := Replied(error, if ok then Answers(before, commands) else []);
        case OpenStream(error, refused, moved, fails) =>
          var batch;
          open, batch := BeginStream(error, refused, moved, fails);
          e := Opened(error, open, batch);
      }
    }

    /** The program, over any list of things that it does or that happen to it. */
    method Drive(ops: seq<Operation>) returns (ghost ls: seq<Ledger>, ghost es: seq<Event>)
      requires CacheOk() && QueueOk() && Inv(ledger) && !ledger.streaming
      modifies this
      ensures CacheOk() && QueueOk() && Inv(ledger) && Counted()
      ensures Run(ls, es) && |es| == |ops| && ls[0] == old(ledger) && ls[|ops|] == ledger
    {
      ls, es := [ledger], [];
      var streaming := false;
      for i := 0 to |ops|
        invariant CacheOk() && QueueOk() && streaming == ledger.streaming
        invariant |es| == i && Run(ls, es) && ls[0] == old(ledger) && ls[i] == ledger
      {
        ghost var e;
        streaming, e := Perform(ops[i], streaming);
        RunExtends(ls, es, e, ledger);
        ls, es := ls + [ledger], es + [e];
      }
      RunsKeepInv(ls, es, |ops|);
    }
  }
}
