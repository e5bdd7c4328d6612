/** The bounded runtime log: rotation of the active file into time-stamped archives, and the
    reader that walks the files backwards under a byte budget. */
module Logs {
  import opened Common

  type Byte = b: int | 0 <= b < 256

  const NEWLINE: Byte := 10
  const BUDGET := 0x20_0000

  // ----- Lines -----

  datatype File = File(name: string, data: seq<Byte>)

  datatype Line = Line(file: string, offset: nat, text: seq<Byte>)

  /** Where a line lies: the file's place in the inventory (newest first) and its bounds. */
  datatype Span = Span(file: nat, begin: nat, end: nat)

  /** A non-empty stretch without newlines between newlines or file ends. */
  ghost predicate IsLine(data: seq<Byte>, begin: int, end: int) {
    && 0 <= begin < end <= |data|
    && (forall i | begin <= i < end :: data[i] != NEWLINE)
    && (begin == 0 || data[begin - 1] == NEWLINE)
    && (end == |data| || data[end] == NEWLINE)
  }

  ghost predicate IsSpan(files: seq<File>, s: Span) {
    s.file < |files| && IsLine(files[s.file].data, s.begin, s.end)
  }

  ghost predicate Newer(s: Span, t: Span) {
    s.file < t.file || (s.file == t.file && s.begin > t.begin)
  }

  ghost predicate AtOrAfter(s: Span, k: nat, from: int) {
    s.file < k || (s.file == k && s.begin >= from)
  }

  /** `spans` lists, newest first, exactly the lines from the newest back to offset `from` of file `k`. */
  ghost predicate Reached(files: seq<File>, spans: seq<Span>, k: nat, from: int) {
    && (forall i | 0 <= i < |spans| :: IsSpan(files, spans[i]) && AtOrAfter(spans[i], k, from))
    && (forall i, j | 0 <= i < j < |spans| :: Newer(spans[i], spans[j]))
    && (forall s :: IsSpan(files, s) && AtOrAfter(s, k, from) ==> s in spans)
  }

  ghost predicate Shown(files: seq<File>, lines: seq<Line>, spans: seq<Span>) {
    && |lines| == |spans|
    && forall i | 0 <= i < |lines| ::
         && IsSpan(files, spans[i])
         && var f := files[spans[i].file];
            lines[i] == Line(f.name, spans[i].begin, f.data[spans[i].begin..spans[i].end])
  }

  /** Nothing between a line that is listed and the newest one is missing. */
  ghost predicate Gapless(files: seq<File>, spans: seq<Span>) {
    forall s, i :: IsSpan(files, s) && s !in spans && 0 <= i < |spans| ==> Newer(spans[i], s)
  }

  lemma ReachedIsGapless(files: seq<File>, spans: seq<Span>, k: nat, from: int)
    requires Reached(files, spans, k, from)
    ensures Gapless(files, spans)
  {
  }

  lemma ReachedTheEnd(files: seq<File>, spans: seq<Span>)
    requires Reached(files, spans, |files|, 0)
    ensures forall s :: IsSpan(files, s) ==> s in spans
  {
  }

  /** `begin..end` is what the backward scan cuts off a file whose lines from `was` on are known. */
  ghost predicate IsCut(data: seq<Byte>, begin: int, end: int, was: int) {
    && 0 <= begin <= end <= was <= |data|
    && (forall i | begin <= i < end :: data[i] != NEWLINE)
    && (begin == 0 || data[begin - 1] == NEWLINE)
    && (if end == was then end == |data| else end == was - 1 && data[end] == NEWLINE)
  }

  /** The cut contains one line if it is not empty, and none otherwise. */
  lemma CutIsOneLine(data: seq<Byte>, begin: int, end: int, was: int, b: int, e: int)
    requires IsCut(data, begin, end, was)
    requires IsLine(data, b, e) && begin <= b < was
    ensures b == begin && e == end
  {
  }

  lemma CutExtends(files: seq<File>, spans: seq<Span>, k: nat, begin: int, end: int, was: int)
    requires k < |files| && Reached(files, spans, k, was) && IsCut(files[k].data, begin, end, was)
    ensures begin == end ==> Reached(files, spans, k, begin)
    ensures begin < end ==>
      IsLine(files[k].data, begin, end) && Reached(files, spans + [Span(k, begin, end)], k, begin)
  {
    forall s | IsSpan(files, s) && AtOrAfter(s, k, begin) && !AtOrAfter(s, k, was)
      ensures begin < end && s == Span(k, begin, end)
    {
      CutIsOneLine(files[k].data, begin, end, was, s.begin, s.end);
    }
    if begin < end {
      var longer := spans + [Span(k, begin, end)];
      forall s | IsSpan(files, s) && AtOrAfter(s, k, begin) ensures s in longer {
        if AtOrAfter(s, k, was) {
          assert s in spans;
        } else {
          assert longer[|spans|] == s;
        }
      }
    }
  }

  /** A file read to its start leads to the end of the next one. */
  lemma NextFile(files: seq<File>, spans: seq<Span>, k: nat)
    requires k < |files| && Reached(files, spans, k, 0)
    ensures Reached(files, spans, k + 1, if k + 1 < |files| then |files[k + 1].data| else 0)
  {
  }

  method LineStart(data: seq<Byte>, end: nat) returns (begin: nat)
    requires end <= |data|
    ensures begin <= end
    ensures forall i | begin <= i < end :: data[i] != NEWLINE
    ensures begin == 0 || data[begin - 1] == NEWLINE
  {
    begin := end;
    while begin > 0 && data[begin - 1] != NEWLINE
      invariant begin <= end
      invariant forall i | begin <= i < end :: data[i] != NEWLINE
    {
      begin := begin - 1;
    }
  }

  method IndexNewline(data: seq<Byte>) returns (cut: nat)
    ensures cut <= |data|
    ensures cut < |data| ==> data[cut] == NEWLINE
    ensures forall i | 0 <= i < cut :: data[i] != NEWLINE
  {
    cut := 0;
    while cut < |data| && data[cut] != NEWLINE
      invariant cut <= |data|
      invariant forall i | 0 <= i < cut :: data[i] != NEWLINE
    {
      cut := cut + 1;
    }
  }

  function Clamp(limit: int): (r: nat)
    ensures 1 <= r <= 2000 && (1 <= limit <= 2000 ==> r == limit) && (limit < 1 ==> r == 200)
  {
    if limit < 1 then 200 else if limit > 2000 then 2000 else limit
  }

  /** The part of a file that the budget allows, starting after a newline when it is cut. */
  method ReadPart(data: seq<Byte>, budget: nat) returns (start: nat, part: seq<Byte>, cut: bool, read: nat)
    ensures read == if |data| <= budget then |data| else budget
    ensures cut <==> |data| > budget
    ensures !cut ==> start == 0 && part == data
    ensures start + |part| <= |data| && part == data[start..start + |part|]
    ensures part != [] ==> start + |part| == |data| && (start == 0 || data[start - 1] == NEWLINE)
    ensures forall i | 0 <= i < |data| - 1 && |data| - budget <= i && data[i] == NEWLINE :: part != [] && start <= i + 1
  {
    start := if |data| > budget then |data| - budget else 0;
    part := data[start..];
    read := |part|;
    cut := start > 0;
    if cut {
      var at := IndexNewline(part);
      if at < |part| {
        assert data[start + at] == NEWLINE;
        part := part[at + 1..];
        start := start + at + 1;
      } else {
        part := [];
      }
    }
  }

  lemma CutIsCut(data: seq<Byte>, part: seq<Byte>, start: nat, begin: nat, end: nat, was: nat)
    requires start + |part| == |data| && part == data[start..] && (start == 0 || data[start - 1] == NEWLINE)
    requires begin <= end <= |part| && (forall i | begin <= i < end :: part[i] != NEWLINE)
    requires begin == 0 || part[begin - 1] == NEWLINE
    requires
      if start + end == was then end == |part|
      else start + end == was - 1 && was <= |data| && part[end] == NEWLINE
    ensures IsCut(data, start + begin, start + end, was)
  {
    forall i | start + begin <= i < start + end ensures data[i] != NEWLINE {
      assert data[i] == part[i - start];
    }
  }

  lemma SliceOfSlice(data: seq<Byte>, start: nat, begin: nat, end: nat)
    requires begin <= end && start + end <= |data|
    ensures data[start..][begin..end] == data[start + begin..start + end]
  {
    var part := data[start..];
    assert |part[begin..end]| == end - begin;
    assert forall i | 0 <= i < end - begin :: part[begin..end][i] == data[start + begin..start + end][i];
  }

  /** One round of the backward loop. */
  lemma BackStep(files: seq<File>, lines: seq<Line>, spans: seq<Span>, k: nat, start: nat, part: seq<Byte>,
                 begin: nat, end: nat, was: nat)
    requires k < |files| && Reached(files, spans, k, was) && Shown(files, lines, spans)
    requires start + |part| == |files[k].data| && part == files[k].data[start..]
    requires start == 0 || files[k].data[start - 1] == NEWLINE
    requires begin <= end <= |part| && (forall i | begin <= i < end :: part[i] != NEWLINE)
    requires begin == 0 || part[begin - 1] == NEWLINE
    requires
      if start + end == was then end == |part|
      else start + end == was - 1 && end < |part| && part[end] == NEWLINE
    ensures begin == end ==> Reached(files, spans, k, start + begin)
    ensures begin < end ==>
      var s := Span(k, start + begin, start + end);
      && Reached(files, spans + [s], k, start + begin)
      && Shown(files, lines + [Line(files[k].name, start + begin, part[begin..end])], spans + [s])
  {
    CutIsCut(files[k].data, part, start, begin, end, was);
    CutExtends(files, spans, k, start + begin, start + end, was);
    SliceOfSlice(files[k].data, start, begin, end);
  }

  /** The lines of one file, newest first, until the limit is reached or the file's part is used up. */
  method ReadBack(ghost files: seq<File>, ghost k: nat, name: string, start: nat, part: seq<Byte>, limit: nat,
                  have: seq<Line>, ghost known: seq<Span>)
      returns (lines: seq<Line>, ghost spans: seq<Span>, end: nat)
    requires k < |files| && name == files[k].name
    requires start + |part| == |files[k].data| && part == files[k].data[start..]
    requires start == 0 || files[k].data[start - 1] == NEWLINE
    requires Reached(files, known, k, |files[k].data|) && Shown(files, have, known) && |have| < limit
    ensures end <= |part| && |lines| <= limit
    ensures Shown(files, lines, spans) && Reached(files, spans, k, start + end)
    ensures |lines| < limit ==> end == 0
  {
    lines, spans, end := have, known, |part|;
    while end > 0
      invariant end <= |part| && |lines| < limit
      invariant Shown(files, lines, spans) && Reached(files, spans, k, start + end)
      invariant end == |part| || end == 0 || part[end - 1] == NEWLINE
    {
      ghost var was := start + end;
      if part[end - 1] == NEWLINE { end := end - 1; }
      var begin := LineStart(part, end);
      BackStep(files, lines, spans, k, start, part, begin, end, was);
      if end > begin {
        lines := lines + [Line(name, start + begin, part[begin..end])];
        spans := spans + [Span(k, start + begin, start + end)];
      }
      end := begin;
      if |lines| == limit { return; }
    }
  }

  /** The bytes of the newest `k` files. */
  function SizeUpTo(files: seq<File>, k: nat): nat
    requires k <= |files|
  {
    if k == 0 then 0 else SizeUpTo(files, k - 1) + |files[k - 1].data|
  }

  lemma {:induction false} SizesGrow(files: seq<File>, j: nat, k: nat)
    requires j <= k <= |files|
    ensures SizeUpTo(files, j) <= SizeUpTo(files, k)
  {
    if j < k { SizesGrow(files, j, k - 1); }
  }

  /** How many bytes there are from the beginning of a line to the end of the newest file. */
  function Depth(files: seq<File>, s: Span): int
    requires s.file < |files|
  {
    SizeUpTo(files, s.file) + |files[s.file].data| - s.begin
  }

  /** The lines that begin within the budget are all shown. */
  ghost predicate BudgetUsed(files: seq<File>, spans: seq<Span>) {
    forall s | IsSpan(files, s) && Depth(files, s) < BUDGET :: s in spans
  }

  /** The budget has ended in file `k`, of which the lines from `from` on are shown. */
  lemma BudgetEnds(files: seq<File>, spans: seq<Span>, k: nat, from: int)
    requires k < |files| && Reached(files, spans, k, from) && SizeUpTo(files, k) <= BUDGET <= SizeUpTo(files, k + 1)
    requires var data, rest := files[k].data, BUDGET - SizeUpTo(files, k);
      forall i | 0 <= i < |data| - 1 && |data| - rest <= i && data[i] == NEWLINE :: from <= i + 1
    requires from <= 0 || BUDGET < SizeUpTo(files, k + 1)
    ensures BudgetUsed(files, spans)
  {
    forall s | IsSpan(files, s) && Depth(files, s) < BUDGET ensures s in spans {
      if s.file > k {
        SizesGrow(files, k + 1, s.file);
      }
      assert AtOrAfter(s, k, from);
    }
  }

  function Size(files: seq<File>): nat {
    if files == [] then 0 else |files[0].data| + Size(files[1..])
  }

  /** The newest lines of all files: every line is the file's bytes at its offset, they come newest
      first without gaps, at most the budget is read, and the answer is complete unless it is
      flagged; it is not flagged when neither the budget nor the limit is reached. */
  method Read(files: seq<File>, limit: int)
      returns (lines: seq<Line>, truncated: bool, read: nat, ghost spans: seq<Span>)
    ensures |lines| <= Clamp(limit) && read <= BUDGET
    ensures Shown(files, lines, spans)
    ensures forall i, j | 0 <= i < j < |spans| :: Newer(spans[i], spans[j])
    ensures Gapless(files, spans)
    ensures !truncated ==> forall s :: IsSpan(files, s) ==> s in spans
    ensures |lines| < Clamp(limit) && Size(files) < BUDGET ==> !truncated
    ensures |lines| < Clamp(limit) ==> BudgetUsed(files, spans)
  {
    var max := Clamp(limit);
    lines, truncated, read, spans := [], false, 0, [];
    for index := 0 to |files|
      invariant |lines| < max && read <= BUDGET && !truncated
      invariant read < BUDGET || index == 0
      invariant read + Size(files[index..]) == Size(files) && read == SizeUpTo(files, index)
      invariant Shown(files, lines, spans) && Reached(files, spans, index, EndOf(files, index))
    {
      assert files[index..][1..] == files[index + 1..];
      var done;
      lines, truncated, read, spans, done := ReadOne(files, index, max, lines, read, spans);
      if done { return; }
    }
    ReachedIsGapless(files, spans, |files|, 0);
    ReachedTheEnd(files, spans);
  }

  function EndOf(files: seq<File>, k: nat): nat {
    if k < |files| then |files[k].data| else 0
  }

  /** One file of the tail: either the next one follows, or the limit or the budget is reached. */
  method ReadOne(files: seq<File>, k: nat, max: nat, have: seq<Line>, before: nat, ghost known: seq<Span>)
      returns (lines: seq<Line>, truncated: bool, read: nat, ghost spans: seq<Span>, done: bool)
    requires k < |files| && |have| < max && before == SizeUpTo(files, k) <= BUDGET
    requires Shown(files, have, known) && Reached(files, known, k, |files[k].data|)
    ensures |lines| <= max && read <= BUDGET && Shown(files, lines, spans)
    ensures !done ==> |lines| < max && !truncated && read == SizeUpTo(files, k + 1) < BUDGET
    ensures !done ==> Reached(files, spans, k + 1, EndOf(files, k + 1))
    ensures done ==> Gapless(files, spans) && forall i, j | 0 <= i < j < |spans| :: Newer(spans[i], spans[j])
    ensures done && !truncated ==> forall s :: IsSpan(files, s) ==> s in spans
    ensures done && |lines| < max ==> BudgetUsed(files, spans) && SizeUpTo(files, k + 1) >= BUDGET
  {
    var start, part, cut, got := ReadPart(files[k].data, BUDGET - before);
    read := before + got;
    lines, spans, truncated, done := have, known, cut, true;
    var end := 0;
    ghost var from: int := |files[k].data|;
    if part != [] || !cut {
      lines, spans, end := ReadBack(files, k, files[k].name, start, part, max, have, known);
      from := start + end;
    }
    ReachedIsGapless(files, spans, k, from);
    if |lines| == max {
      truncated := end > 0 || start > 0 || k + 1 < |files|;
      if !truncated {
        NextFile(files, spans, k);
        ReachedTheEnd(files, spans);
      }
    } else if read >= BUDGET {
      truncated := true;
      BudgetEnds(files, spans, k, from);
    } else {
      done := false;
      NextFile(files, spans, k);
    }
  }

  /** The record that ends the newest file is the first line of a tail that shows any. */
  lemma LastRecordIsFirstLine(files: seq<File>, lines: seq<Line>, spans: seq<Span>, before: seq<Byte>, text: seq<Byte>)
    requires files != [] && files[0].data == before + text + [NEWLINE]
    requires text != [] && NEWLINE !in text && (before == [] || before[|before| - 1] == NEWLINE)
    requires Shown(files, lines, spans) && Gapless(files, spans) && spans != []
    requires forall i, j | 0 <= i < j < |spans| :: Newer(spans[i], spans[j])
    ensures lines[0] == Line(files[0].name, |before|, text)
  {
    var data, end := files[0].data, |before| + |text|;
    var s := Span(0, |before|, end);
    assert data[end] == NEWLINE;
    forall i | |before| <= i < end ensures data[i] != NEWLINE {
      assert data[i] == text[i - |before|];
    }
    assert IsSpan(files, s);
    assert s !in spans ==> Newer(spans[0], s);
    assert data[|before|..end] == text;
  }

  // ----- Rotation -----

  /** The archives by the time stamp in their names; stamps have a fixed width, so names sort
      like stamps. */
  type Directory = map<nat, seq<Byte>>

  lemma {:induction false} NewestExists(dir: Directory)
    requires dir != map[]
    ensures exists k :: IsNewest(dir, k)
    decreases |dir|
  {
    var k :| k in dir;
    if !IsNewest(dir, k) {
      var rest := dir - {k};
      var j :| j in dir && j > k;
      assert j in rest;
      assert rest.Keys == dir.Keys - {k};
      NewestExists(rest);
      var m: nat :| IsNewest(rest, m);
      forall i | i in dir ensures i <= m {
        assert i == k || i in rest;
      }
      assert IsNewest(dir, m);
    }
  }

  ghost predicate IsNewest(dir: Directory, k: nat) {
    k in dir && forall j | j in dir :: j <= k
  }

  /** The bytes of the archives, in name order. */
  ghost function Archived(dir: Directory): seq<Byte>
    decreases |dir|
  {
    if dir == map[] then []
    else
      NewestExists(dir);
      var k :| IsNewest(dir, k);
      assert (dir - {k}).Keys == dir.Keys - {k};
      Archived(dir - {k}) + dir[k]
  }

  lemma ArchivedLast(dir: Directory, k: nat)
    requires IsNewest(dir, k)
    ensures Archived(dir) == Archived(dir - {k}) + dir[k]
  {
  }

  lemma ArchivedAppends(dir: Directory, k: nat, data: seq<Byte>)
    requires forall j | j in dir :: j < k
    ensures Archived(dir[k := data]) == Archived(dir) + data
  {
    assert dir[k := data] - {k} == dir;
    ArchivedLast(dir[k := data], k);
  }

  predicate IsSuffix(s: seq<Byte>, t: seq<Byte>) {
    |s| <= |t| && s == t[|t| - |s|..]
  }

  lemma SuffixAppends(s: seq<Byte>, t: seq<Byte>, more: seq<Byte>)
    requires IsSuffix(s, t)
    ensures IsSuffix(s + more, t + more)
  {
  }

  lemma SuffixChains(r: seq<Byte>, s: seq<Byte>, t: seq<Byte>)
    requires IsSuffix(r, s) && IsSuffix(s, t)
    ensures IsSuffix(r, t)
  {
  }

  ghost predicate Keeps(dir: Directory, kept: Directory) {
    && (forall k | k in kept :: k in dir && kept[k] == dir[k])
    && (forall k, j | k in kept && j in dir && j !in kept :: j < k)
  }

  /** Removing only the oldest archives leaves the end of what was archived. */
  lemma {:induction false} KeepingTheNewest(dir: Directory, kept: Directory)
    requires Keeps(dir, kept)
    ensures IsSuffix(Archived(kept), Archived(dir))
    decreases |dir|
  {
    if kept != map[] {
      NewestExists(dir);
      var k :| IsNewest(dir, k);
      NewestIsKept(dir, kept, k);
      assert (dir - {k}).Keys == dir.Keys - {k};
      KeepingTheNewest(dir - {k}, kept - {k});
      ArchivedLast(dir, k);
      ArchivedLast(kept, k);
      SuffixAppends(Archived(kept - {k}), Archived(dir - {k}), dir[k]);
    }
  }

  lemma NewestIsKept(dir: Directory, kept: Directory, k: nat)
    requires Keeps(dir, kept) && kept != map[] && IsNewest(dir, k)
    ensures IsNewest(kept, k) && Keeps(dir - {k}, kept - {k})
  {
    var j :| j in kept;
    assert k in kept;
  }

  predicate IsInventory(names: seq<nat>, dir: Directory) {
    && |names| == |dir|
    && (forall i | 0 <= i < |names| :: names[i] in dir)
    && (forall k | k in dir :: k in names)
    && (forall i, j | 0 <= i < j < |names| :: names[i] > names[j])
  }

  /** The files in the order of the inventory. */
  function Listing(naming: nat -> string, activeName: string, dir: Directory, active: Option<seq<Byte>>,
                   names: seq<nat>): (files: seq<File>)
    requires IsInventory(names, dir)
  {
    (if active.Some? then [File(activeName, active.value)] else []) +
    seq(|names|, i requires 0 <= i < |names| => File(naming(names[i]), dir[names[i]]))
  }

  /** The archive names, newest first. */
  method Inventory(dir: Directory) returns (names: seq<nat>)
    ensures IsInventory(names, dir)
  {
    var entries: seq<nat> := [];
    var todo := dir.Keys;
    while todo != {}
      invariant todo <= dir.Keys && |entries| + |todo| == |dir.Keys|
      invariant forall k :: k in entries <==> k in dir.Keys - todo
      invariant Distinct(entries)
      decreases |todo|
    {
      var k :| k in todo;
      todo := todo - {k};
      entries := entries + [k];
    }
    var newer := (a: nat, b: nat) => a >= b;
    names := SortBy(newer, entries);
    SortPermutes(newer, entries);
    SortSorts(newer, entries);
    SortKeepsDistinct(newer, entries);
    forall k ensures k in names <==> k in dir {
      SortSameElements(newer, entries, k);
    }
    forall i, j | 0 <= i < j < |names| ensures names[i] > names[j] {
      assert newer(names[i], names[j]);
    }
    forall i | 0 <= i < |names| ensures names[i] in dir {
      assert names[i] in names;
    }
  }

  /** The directory after the removal of the archives at the places `from..to` of its inventory. */
  function Without(dir: Directory, names: seq<nat>, from: nat, to: nat): Directory
    requires to <= |names|
  {
    dir - set i | from <= i < to :: names[i]
  }

  /** How far a prune of `count` archives may get: when it is not complete it has not begun, or it
      has ended at a surplus archive whose removal failed. */
  predicate Reaches(archives: nat, count: nat, at: nat, complete: bool) {
    if complete then at == count else at == 0 || archives <= at < count
  }

  lemma WithoutFacts(dir: Directory, names: seq<nat>, from: nat, to: nat)
    requires IsInventory(names, dir) && to <= |names|
    ensures var kept := Without(dir, names, from, to);
      && (forall k | k in kept :: k in dir && kept[k] == dir[k])
      && (forall j | 0 <= j < |names| :: names[j] in kept <==> !(from <= j < to))
      && |kept| <= |dir|
  {
    var kept := Without(dir, names, from, to);
    forall j | 0 <= j < |names| ensures names[j] in kept <==> !(from <= j < to) {
      if names[j] !in kept {
        var i :| from <= i < to && names[i] == names[j];
        assert i == j;
      }
    }
    CardinalityMonotone(kept.Keys, dir.Keys);
  }

  lemma WithoutNext(dir: Directory, names: seq<nat>, from: nat, to: nat)
    requires to < |names|
    ensures Without(dir, names, from, to + 1) ==
      if from <= to then Without(dir, names, from, to) - {names[to]} else Without(dir, names, from, to)
  {
    var removed := set i | from <= i < to :: names[i];
    if from <= to {
      assert (set i | from <= i < to + 1 :: names[i]) == removed + {names[to]};
    }
  }

  /** Removes all but the newest `archives`; a listing or a removal that fails ends it. */
  method Prune(dir: Directory, archives: nat, healthy: bool)
      returns (ok: bool, kept: Directory, ghost names: seq<nat>, ghost at: nat)
    ensures healthy ==> ok
    ensures IsInventory(names, dir) && Reaches(archives, |names|, at, ok)
    ensures kept == Without(dir, names, archives, at)
  {
    var order := Inventory(dir);
    names, kept, at := order, dir, 0;
    ok := Attempt(healthy);
    if !ok { return; }
    var count := 0;
    for i := 0 to |order|
      invariant count == i && kept == Without(dir, order, archives, i)
    {
      WithoutNext(dir, order, archives, i);
      count := count + 1;
      if count > archives {
        var works := Attempt(healthy);
        if !works { return false, kept, order, i; }
        kept := kept - {order[i]};
      }
    }
    ok, at := true, |order|;
  }

  /** A prune that ends early leaves no gap exactly when it gets no further than the first surplus
      archive: then it has removed nothing. */
  lemma EarlyEndKeepsIff(dir: Directory, names: seq<nat>, archives: nat, at: nat)
    requires IsInventory(names, dir) && at < |names|
    ensures Keeps(dir, Without(dir, names, archives, at)) <==> at <= archives
    ensures at <= archives ==> Without(dir, names, archives, at) == dir
  {
    var kept := Without(dir, names, archives, at);
    WithoutFacts(dir, names, archives, at);
    if at > archives {
      assert names[at] in kept && names[archives] in dir && names[archives] !in kept;
    }
  }

  /** With one archive allowed, three found and the second removal failing, the newest and the
      oldest remain, and they are not the end of what was archived. */
  lemma GapExample()
    ensures var dir: Directory := map[1 := [10], 2 := [20], 3 := [30]];
      && IsInventory([3, 2, 1], dir)
      && Without(dir, [3, 2, 1], 1, 2) == map[1 := [10], 3 := [30]]
      && !IsSuffix(Archived(map[1 := [10], 3 := [30]]), Archived(dir))
  {
    var dir: Directory := map[1 := [10], 2 := [20], 3 := [30]];
    GapInventory(dir);
    GapLeft(dir, [3, 2, 1]);
    assert dir - {2} == map[1 := [10], 3 := [30]];
    GapContents();
  }

  lemma GapInventory(dir: Directory)
    requires dir.Keys == {1, 2, 3}
    ensures IsInventory([3, 2, 1], dir)
  {
    var names: seq<nat> := [3, 2, 1];
    assert names[0] == 3 && names[1] == 2 && names[2] == 1;
    assert |dir.Keys| == 3;
  }

  lemma GapLeft(dir: Directory, names: seq<nat>)
    requires |names| == 3
    ensures Without(dir, names, 1, 2) == dir - {names[1]}
  {
    WithoutNext(dir, names, 1, 1);
    assert Without(dir, names, 1, 1) == dir;
  }

  lemma GapContents()
    ensures Archived(map[1 := [10], 3 := [30]]) == [10, 30]
    ensures Archived(map[1 := [10], 2 := [20], 3 := [30]]) == [10, 20, 30]
  {
    var none: Directory := map[];
    var one, two := none[1 := [10]], none[1 := [10]][2 := [20]];
    ArchivedAppends(none, 1, [10]);
    ArchivedAppends(one, 2, [20]);
    ArchivedAppends(two, 3, [30]);
    ArchivedAppends(one, 3, [30]);
    assert one[3 := [30]] == map[1 := [10], 3 := [30]];
    assert two[3 := [30]] == map[1 := [10], 2 := [20], 3 := [30]];
  }

  lemma KeptIsBounded(kept: Directory, names: seq<nat>, archives: nat)
    requires forall k | k in kept :: k in names
    requires forall j | archives <= j < |names| :: names[j] !in kept
    ensures |kept| <= archives
  {
    var first := if |names| <= archives then names else names[..archives];
    forall k | k in kept ensures k in first {
      var j :| 0 <= j < |names| && names[j] == k;
      assert first[j] == k;
    }
    assert kept.Keys <= SetOf(first);
    CardinalityMonotone(kept.Keys, SetOf(first));
    SetSize(first);
  }

  function SetOf(s: seq<nat>): set<nat> {
    set i | 0 <= i < |s| :: s[i]
  }

  lemma {:induction false} SetSize(s: seq<nat>)
    ensures |SetOf(s)| <= |s| && (Distinct(s) ==> |SetOf(s)| == |s|)
  {
    if s != [] {
      var front, last := s[..|s| - 1], s[|s| - 1];
      SetSize(front);
      assert SetOf(s) == SetOf(front) + {last};
      if Distinct(s) {
        assert last !in SetOf(front);
      }
    }
  }

  lemma {:induction false} CardinalityMonotone(a: set<nat>, b: set<nat>)
    requires a <= b
    ensures |a| <= |b|
  {
    if a != {} {
      var x :| x in a;
      CardinalityMonotone(a - {x}, b - {x});
    }
  }

  /** The bytes of the active file; a missing file has none. */
  function Bytes(active: Option<seq<Byte>>): seq<Byte> {
    if active.Some? then active.value else []
  }

  /** The manager's descriptor of the active file: none, usable, or left closed by a failed close. */
  datatype Handle = Absent | Live | Dead

  /** Any `most` newest archives in name order, and then the active file, are the end of
      everything written. */
  ghost predicate TailsInOrder(dir: Directory, current: seq<Byte>, written: seq<Byte>, most: nat) {
    forall recent: Directory {:trigger Keeps(dir, recent)} ::
      Keeps(dir, recent) && |recent| <= most ==> IsSuffix(Archived(recent) + current, written)
  }

  ghost predicate NotAhead(dir: Directory, last: int) {
    forall k | k in dir :: k <= last
  }

  /** The order of the archives: that of the newest ones always, and of all unless a prune has left
      a gap. */
  ghost predicate Ordered(dir: Directory, current: seq<Byte>, written: seq<Byte>, last: int, archives: nat,
                          gap: bool) {
    && NotAhead(dir, last) && TailsInOrder(dir, current, written, archives)
    && (!gap ==> IsSuffix(Archived(dir) + current, written))
  }

  ghost predicate Sized(dir: Directory, current: seq<Byte>, maxSize: nat) {
    |current| <= maxSize && forall k | k in dir :: |dir[k]| <= maxSize
  }

  /** All archives are in order as soon as as many as there are are. */
  lemma WholeInOrder(dir: Directory, current: seq<Byte>, written: seq<Byte>, most: nat)
    requires TailsInOrder(dir, current, written, most) && |dir| <= most
    ensures IsSuffix(Archived(dir) + current, written)
  {
    assert Keeps(dir, dir);
  }

  lemma WholeGivesTails(dir: Directory, current: seq<Byte>, written: seq<Byte>, most: nat)
    requires IsSuffix(Archived(dir) + current, written)
    ensures TailsInOrder(dir, current, written, most)
  {
    forall recent: Directory | Keeps(dir, recent) ensures IsSuffix(Archived(recent) + current, written) {
      KeepingTheNewest(dir, recent);
      SuffixAppends(Archived(recent), Archived(dir), current);
      SuffixChains(Archived(recent) + current, Archived(dir) + current, written);
    }
  }

  lemma RenamingKeeps(dir: Directory, current: seq<Byte>, written: seq<Byte>, before: int, most: nat, now: nat)
    requires TailsInOrder(dir, current, written, most) && NotAhead(dir, before) && before < now
    ensures TailsInOrder(dir[now := current], [], written, most + 1) && NotAhead(dir[now := current], now)
  {
    var more := dir[now := current];
    forall recent: Directory | Keeps(more, recent) && |recent| <= most + 1
      ensures IsSuffix(Archived(recent) + [], written)
    {
      if recent != map[] {
        NewestIsKept(more, recent, now);
        assert more - {now} == dir;
        assert (recent - {now}).Keys == recent.Keys - {now};
        NewestIsLast(recent, now);
      } else {
        assert Archived(recent) + [] == [];
      }
    }
  }

  lemma NewestIsLast(recent: Directory, now: nat)
    requires IsNewest(recent, now)
    ensures Archived(recent) + [] == Archived(recent - {now}) + recent[now]
  {
    ArchivedLast(recent, now);
  }

  /** Of what a prune leaves, the newest `archives` are the newest of what it found. */
  lemma PruneSparesTheNewest(dir: Directory, names: seq<nat>, archives: nat, at: nat, recent: Directory)
    requires IsInventory(names, dir) && at <= |names|
    requires Keeps(Without(dir, names, archives, at), recent) && |recent| <= archives
    ensures Keeps(dir, recent)
  {
    var kept := Without(dir, names, archives, at);
    WithoutFacts(dir, names, archives, at);
    forall k, j | k in recent && j in dir && j !in recent ensures j < k {
      if j !in kept {
        var p :| 0 <= p < |names| && names[p] == k;
        var q :| 0 <= q < |names| && names[q] == j;
        assert archives <= q < at;
        if p >= archives {
          TooMany(kept, names, archives, at, recent, p);
        }
      }
    }
  }

  /** An archive beyond the allowed number can only be kept with all newer ones. */
  lemma TooMany(kept: Directory, names: seq<nat>, archives: nat, at: nat, recent: Directory, p: nat)
    requires archives <= p < |names| && Keeps(kept, recent) && names[p] in recent
    requires forall i, j | 0 <= i < j < |names| :: names[i] > names[j]
    requires forall i | 0 <= i < archives :: names[i] in kept
    ensures |recent| > archives
  {
    var first := names[..archives];
    forall i | 0 <= i < archives ensures names[i] in recent {
      assert names[i] > names[p];
    }
    assert Distinct(first);
    SetSize(first);
    forall k | k in SetOf(first) ensures k in recent && k != names[p] {
      var i :| 0 <= i < |first| && first[i] == k;
      assert names[i] == k;
    }
    assert |SetOf(first) + {names[p]}| == archives + 1;
    CardinalityMonotone(SetOf(first) + {names[p]}, recent.Keys);
  }

  lemma PruningKeeps(dir: Directory, names: seq<nat>, archives: nat, at: nat, written: seq<Byte>, last: int)
    requires TailsInOrder(dir, [], written, archives) && NotAhead(dir, last)
    requires IsInventory(names, dir) && at <= |names|
    ensures var kept := Without(dir, names, archives, at);
      && TailsInOrder(kept, [], written, archives) && NotAhead(kept, last)
      && |kept| <= |dir| && (at == |names| ==> |kept| <= archives)
  {
    var kept := Without(dir, names, archives, at);
    WithoutFacts(dir, names, archives, at);
    forall recent: Directory | Keeps(kept, recent) && |recent| <= archives
      ensures IsSuffix(Archived(recent) + [], written)
    {
      PruneSparesTheNewest(dir, names, archives, at, recent);
    }
    PrunedSize(dir, names, archives, at);
  }

  lemma PrunedSize(dir: Directory, names: seq<nat>, archives: nat, at: nat)
    requires IsInventory(names, dir) && at <= |names|
    ensures at == |names| ==> |Without(dir, names, archives, at)| <= archives
  {
    WithoutFacts(dir, names, archives, at);
    if at == |names| {
      KeptIsBounded(Without(dir, names, archives, at), names, archives);
    }
  }

  lemma WritingKeeps(dir: Directory, current: seq<Byte>, written: seq<Byte>, last: int, archives: nat, gap: bool,
                     p: seq<Byte>)
    requires Ordered(dir, current, written, last, archives, gap)
    ensures Ordered(dir, current + p, written + p, last, archives, gap)
  {
    forall recent: Directory | Keeps(dir, recent) && |recent| <= archives
      ensures IsSuffix(Archived(recent) + (current + p), written + p)
    {
      WholeWrites(recent, current, written, p);
    }
    if !gap {
      WholeWrites(dir, current, written, p);
    }
  }

  lemma WholeWrites(dir: Directory, current: seq<Byte>, written: seq<Byte>, p: seq<Byte>)
    requires IsSuffix(Archived(dir) + current, written)
    ensures IsSuffix(Archived(dir) + (current + p), written + p)
  {
    SuffixAppends(Archived(dir) + current, written, p);
    assert Archived(dir) + current + p == Archived(dir) + (current + p);
  }

  /** What a rotation came to: nothing moved, the active file archived but not replaced, or moved
      and replaced, with a prune that reached `at` of the inventory `names`. */
  datatype Rotation = Unmoved | Orphaned | Moved(names: seq<nat>, at: nat, complete: bool)

  ghost predicate Rotated(dir: Directory, data: seq<Byte>, now: nat, archives: nat, r: Rotation,
                          after: Directory, active: Option<seq<Byte>>, handle: Handle) {
    var more := dir[now := data];
    match r
    case Unmoved => after == dir && active == Some(data)
    case Orphaned => after == more && active == None && handle == Absent
    case Moved(names, at, complete) =>
      && IsInventory(names, more) && Reaches(archives, |names|, at, complete)
      && after == Without(more, names, archives, at) && active == Some([]) && handle == Live
  }

  predicate Complete(r: Rotation) {
    r.Moved? && r.complete
  }

  /** The prune ended early, with something removed already. */
  predicate LeavesGap(r: Rotation, archives: nat) {
    r.Moved? && !r.complete && archives < r.at
  }

  /** One archive too many is left exactly when the directory was full and the active file could
      not be replaced or the prune failed. */
  lemma OverflowIff(dir: Directory, data: seq<Byte>, now: nat, archives: nat, r: Rotation,
                    after: Directory, active: Option<seq<Byte>>, handle: Handle)
    requires Rotated(dir, data, now, archives, r, after, active, handle) && |dir| <= archives && now !in dir
    ensures |after| > archives <==> |dir| == archives && (r.Orphaned? || (r.Moved? && !Complete(r)))
    ensures (r.Moved? ==> Complete(r)) ==> (|after| > archives <==> |dir| == archives && active.None?)
    ensures |after| <= archives + 1 && !LeavesGap(r, archives)
  {
    var more := dir[now := data];
    assert more.Keys == dir.Keys + {now} && |more.Keys| == |dir.Keys| + 1;
    if r.Moved? {
      PrunedSize(more, r.names, archives, r.at);
      if r.at < |r.names| {
        EarlyEndKeepsIff(more, r.names, archives, r.at);
      }
    }
  }

  /** One archive allowed, one found, and the new active file could not be opened. */
  lemma OverflowExample()
    ensures var dir: Directory := map[1 := [10]];
      && Rotated(dir, [20], 2, 1, Orphaned, map[1 := [10], 2 := [20]], None, Absent)
      && |(map[1 := [10], 2 := [20]])| == 2
  {
    var dir: Directory := map[1 := [10]];
    var more: Directory := map[1 := [10], 2 := [20]];
    assert dir[2 := [20]] == more;
    assert more.Keys == {1, 2} && |more.Keys| == 2;
  }

  method OpenActive(active: Option<seq<Byte>>, healthy: bool) returns (now: Option<seq<Byte>>, handle: Handle)
    ensures handle == Live || (handle == Absent && now == active)
    ensures handle == Live ==> now == Some(Bytes(active))
    ensures healthy ==> handle == Live
  {
    var works := Attempt(healthy);
    if !works { return active, Absent; }
    now, handle := Some(Bytes(active)), Live;
  }

  /** Moves the active file into the archives, if it `moves`, and prunes them. */
  method Rotate(dir: Directory, data: seq<Byte>, now: nat, archives: nat, healthy: bool, moves: bool)
      returns (ok: bool, after: Directory, active: Option<seq<Byte>>, handle: Handle, ghost r: Rotation)
    ensures Rotated(dir, data, now, archives, r, after, active, handle)
    ensures ok <==> Complete(r)
    ensures healthy ==> (ok <==> moves) && handle == Live
  {
    ok := false;
    var works := Attempt(healthy);
    if !works { return false, dir, Some(data), Dead, Unmoved; }
    works := Attempt(healthy);
    if !works || !moves {
      active, handle := OpenActive(Some(data), healthy);
      return false, dir, active, handle, Unmoved;
    }
    after := dir[now := data];
    active, handle := OpenActive(None, healthy);
    if handle != Live { return false, after, active, handle, Orphaned; }
    ghost var names, at;
    ok, after, names, at := Prune(after, archives, healthy);
    r := Moved(names, at, ok);
  }

  /** Whatever a rotation came to, the newest archives stay in order. All of them do after a complete
      prune, even where there was a gap before, and a gap only comes of a prune that leaves one. */
  lemma RotationKeeps(dir: Directory, data: seq<Byte>, written: seq<Byte>, before: int, now: nat, archives: nat,
                      gap: bool, r: Rotation, after: Directory, active: Option<seq<Byte>>, handle: Handle)
    requires Ordered(dir, data, written, before, archives, gap) && before < now
    requires Rotated(dir, data, now, archives, r, after, active, handle)
    ensures Ordered(after, Bytes(active), written, now, archives,
                    !Complete(r) && (gap || LeavesGap(r, archives)))
  {
    RenamingKeeps(dir, data, written, before, archives, now);
    if !gap {
      ArchivedAppends(dir, now, data);
      assert Archived(dir[now := data]) + [] == Archived(dir) + data;
    }
    if r.Moved? {
      MovingKeeps(dir[now := data], written, now, archives, gap, r);
    }
  }

  lemma MovingKeeps(more: Directory, written: seq<Byte>, now: nat, archives: nat, gap: bool, r: Rotation)
    requires TailsInOrder(more, [], written, archives) && NotAhead(more, now)
    requires !gap ==> IsSuffix(Archived(more) + [], written)
    requires r.Moved? && IsInventory(r.names, more) && Reaches(archives, |r.names|, r.at, r.complete)
    ensures Ordered(Without(more, r.names, archives, r.at), [], written, now, archives,
                    !Complete(r) && (gap || LeavesGap(r, archives)))
  {
    PruningKeeps(more, r.names, archives, r.at, written, now);
    if r.complete {
      WholeInOrder(Without(more, r.names, archives, r.at), [], written, archives);
    } else if r.at < |r.names| {
      EarlyEndKeepsIff(more, r.names, archives, r.at);
    } else {
      assert Without(more, r.names, archives, 0) == more;
    }
  }

  lemma RotationKeepsSizes(dir: Directory, data: seq<Byte>, now: nat, archives: nat, r: Rotation,
                           after: Directory, active: Option<seq<Byte>>, handle: Handle, maxSize: nat)
    requires Sized(dir, data, maxSize) && Rotated(dir, data, now, archives, r, after, active, handle)
    ensures Sized(after, Bytes(active), maxSize)
  {
    if r.Moved? {
      WithoutFacts(dir[now := data], r.names, archives, r.at);
    }
  }

  lemma CompletePruneKeeps(dir: Directory, names: seq<nat>, archives: nat)
    requires IsInventory(names, dir)
    ensures var kept := Without(dir, names, archives, |names|);
      Keeps(dir, kept) && |kept| <= archives && (|dir| <= archives ==> kept == dir)
  {
    var kept := Without(dir, names, archives, |names|);
    WithoutFacts(dir, names, archives, |names|);
    KeptIsBounded(kept, names, archives);
    forall k, j | k in kept && j in dir && j !in kept ensures j < k {
      KeptIsNewer(dir, names, archives, k, j);
    }
  }

  lemma KeptIsNewer(dir: Directory, names: seq<nat>, archives: nat, k: nat, j: nat)
    requires IsInventory(names, dir) && j in dir
    requires k in Without(dir, names, archives, |names|) && j !in Without(dir, names, archives, |names|)
    ensures j < k
  {
    WithoutFacts(dir, names, archives, |names|);
    var a :| 0 <= a < |names| && names[a] == k;
    var b :| 0 <= b < |names| && names[b] == j;
    assert a < archives <= b;
  }

  /** The number of files archived since the last complete prune. */
  function OwedAfter(r: Rotation, owed: nat): nat {
    if Complete(r) then 0 else if r.Unmoved? then owed else owed + 1
  }

  lemma RotationBounds(dir: Directory, data: seq<Byte>, now: nat, archives: nat, r: Rotation,
                       after: Directory, active: Option<seq<Byte>>, handle: Handle, owed: nat)
    requires Rotated(dir, data, now, archives, r, after, active, handle) && |dir| <= archives + owed
    ensures |after| <= archives + OwedAfter(r, owed)
    ensures LeavesGap(r, archives) ==> 0 < owed && OwedAfter(r, owed) > 1
    ensures Complete(r) ==> Keeps(dir[now := data], after)
  {
    var more := dir[now := data];
    assert more.Keys == dir.Keys + {now};
    if r.Moved? {
      WithoutFacts(more, r.names, archives, r.at);
      if Complete(r) { CompletePruneKeeps(more, r.names, archives); }
    }
  }

  /** What is known of a log's past. */
  datatype Book = Book(
    written: seq<Byte>,   // everything ever written, starting with what was found
    last: int,            // the last reading of the clock
    increasing: bool,     // the clock has been strictly increasing
    fits: bool,           // the files found at the start were within the size limit
    owed: nat,            // files archived since the last complete prune
    gap: bool)            // a prune since then ended after it had removed something

  /** There are no more archives than are allowed and owed, and a gap takes two owed ones; the order
      of the archives; the size of the files. */
  ghost predicate Good(maxSize: nat, archives: nat, dir: Directory, current: seq<Byte>, b: Book) {
    && |dir| <= archives + b.owed && (b.gap ==> b.owed > 1)
    && (b.increasing ==> Ordered(dir, current, b.written, b.last, archives, b.gap))
    && (b.fits ==> Sized(dir, current, maxSize))
  }

  function Ticked(b: Book, now: int): Book {
    b.(increasing := b.increasing && now > b.last, last := now)
  }

  lemma TickingIsGood(maxSize: nat, archives: nat, dir: Directory, current: seq<Byte>, b: Book, now: int)
    requires Good(maxSize, archives, dir, current, b)
    ensures Good(maxSize, archives, dir, current, Ticked(b, now))
  {
  }

  lemma WritingIsGood(maxSize: nat, archives: nat, dir: Directory, current: seq<Byte>, b: Book, p: seq<Byte>)
    requires Good(maxSize, archives, dir, current, b) && |current| + |p| <= maxSize
    ensures Good(maxSize, archives, dir, current + p, b.(written := b.written + p))
  {
    if b.increasing {
      WritingKeeps(dir, current, b.written, b.last, archives, b.gap, p);
    }
  }

  lemma FoundIsGood(maxSize: nat, archives: nat, dir: Directory, current: seq<Byte>, b: Book)
    requires |dir| <= archives && b.written == Archived(dir) + current && !b.gap
    requires b.increasing ==> NotAhead(dir, b.last)
    requires b.fits ==> Sized(dir, current, maxSize)
    ensures Good(maxSize, archives, dir, current, b)
  {
    WholeGivesTails(dir, current, b.written, archives);
  }

  /** A rotation, with what it keeps. */
  method RotateKeeping(maxSize: nat, archives: nat, healthy: bool, moves: bool, dir: Directory, data: seq<Byte>,
                       now: nat, ghost b: Book)
      returns (ok: bool, after: Directory, active: Option<seq<Byte>>, handle: Handle, ghost next: Book)
    requires Good(maxSize, archives, dir, data, b)
    ensures Good(maxSize, archives, after, Bytes(active), next)
    ensures next == Ticked(b, now).(owed := next.owed, gap := next.gap)
    ensures next.owed <= b.owed + 1 && (next.gap ==> b.gap || b.owed > 0)
    ensures handle == Live ==> active.Some?
    ensures ok ==>
      Keeps(dir[now := data], after) && active == Some([]) && handle == Live && next.owed == 0 && !next.gap
    ensures healthy ==> (ok <==> moves) && handle == Live
  {
    ghost var r;
    ok, after, active, handle, r := Rotate(dir, data, now, archives, healthy, moves);
    next := Ticked(b, now).(owed := OwedAfter(r, b.owed),
                            gap := !Complete(r) && (b.gap || LeavesGap(r, archives)));
    RotationBounds(dir, data, now, archives, r, after, active, handle, b.owed);
    if next.increasing {
      RotationKeeps(dir, data, b.written, b.last, now, archives, b.gap, r, after, active, handle);
    }
    if b.fits {
      RotationKeepsSizes(dir, data, now, archives, r, after, active, handle, maxSize);
    }
  }

  class Manager {
    const maxSize: nat
    const archives: nat
    const healthy: bool    // no file operation fails
    var dir: Directory
    var active: Option<seq<Byte>>
    var handle: Handle
    var closed: bool
    ghost var book: Book

    ghost function Current(): seq<Byte>
      reads this
    {
      Bytes(active)
    }

    ghost predicate Valid()
      reads this
    {
      && maxSize > 0 && archives > 0 && (handle.Live? ==> active.Some?)
      && Good(maxSize, archives, dir, Bytes(active), book)
    }

    constructor (maxSize: nat, archives: nat, healthy: bool, dir: Directory, active: seq<Byte>, ghost now: int)
      requires maxSize > 0 && 0 < archives && |dir| <= archives
      ensures Valid() && this.maxSize == maxSize && this.archives == archives && this.healthy == healthy
      ensures this.dir == dir && this.active == Some(active) && handle == Live && !closed
      ensures book == Book(Archived(dir) + active, now, NotAhead(dir, now), Sized(dir, active, maxSize), 0, false)
    {
      this.maxSize, this.archives, this.healthy := maxSize, archives, healthy;
      this.dir, this.active, handle, closed := dir, Some(active), Live, false;
      ghost var b := Book(Archived(dir) + active, now, NotAhead(dir, now), Sized(dir, active, maxSize), 0, false);
      FoundIsGood(maxSize, archives, dir, active, b);
      book := b;
    }

    /** Opens the log over what an earlier process left, pruning it first. */
    static method Open(maxSize: int, archives: int, healthy: bool,
                       found: Directory, active: Option<seq<Byte>>, ghost now: int) returns (m: Manager?)
      ensures maxSize <= 0 || archives < 1 ==> m == null
      ensures healthy && maxSize > 0 && archives >= 1 ==> m != null
      ensures m != null ==>
        && fresh(m) && m.Valid() && m.handle == Live && !m.closed && m.maxSize == maxSize && m.archives == archives
        && m.book == Book(Archived(m.dir) + m.Current(), now, NotAhead(m.dir, now),
                          Sized(m.dir, m.Current(), maxSize), 0, false)
        && Keeps(found, m.dir) && |m.dir| <= archives && m.Current() == Bytes(active)
    {
      if maxSize <= 0 || archives < 1 { return null; }
      var works := Attempt(healthy);
      if !works { return null; }
      ghost var names, at;
      var ok, dir;
      ok, dir, names, at := Prune(found, archives, healthy);
      if !ok { return null; }
      CompletePruneKeeps(found, names, archives);
      m := new Manager(maxSize, archives, healthy, dir, Bytes(active), now);
    }

    /** Rotates the active file when `size` more bytes would take it over the limit. */
    method MakeRoom(size: nat, now: nat, moves: bool) returns (ok: bool)
      requires Valid() && handle == Live && size <= maxSize
      modifies this
      ensures Valid() && closed == old(closed)
      ensures book == Ticked(old(book), now).(owed := book.owed, gap := book.gap)
      ensures old(Current()) == [] || |old(Current())| + size <= maxSize ==>
        ok && dir == old(dir) && Current() == old(Current()) && handle == Live && book == Ticked(old(book), now)
      ensures ok && old(Current()) != [] && |old(Current())| + size > maxSize ==>
        && Keeps(old(dir)[now := old(Current())], dir) && Current() == [] && handle == Live
        && book.owed == 0 && !book.gap
      ensures book.owed <= old(book).owed + 1 && (book.gap ==> old(book).gap || old(book).owed > 0)
      ensures healthy && moves ==> ok
      ensures healthy ==> handle == Live
    {
      ok := true;
      if |active.value| > 0 && |active.value| + size > maxSize {
        ok, dir, active, handle, book := RotateKeeping(maxSize, archives, healthy, moves, dir, active.value, now, book);
      } else {
        TickingIsGood(maxSize, archives, dir, active.value, book, now);
        book := Ticked(book, now);
      }
    }

    method Append(p: seq<Byte>) returns (ok: bool, n: nat)
      requires Valid() && handle == Live && (Current() == [] || |Current()| + |p| <= maxSize) && |p| <= maxSize
      modifies this`active, this`book
      ensures Valid()
      ensures n <= |p| && (ok ==> n == |p|) && (healthy ==> ok)
      ensures book == old(book).(written := old(book).written + p[..n]) && active == Some(old(Current()) + p[..n])
    {
      ok, n := true, |p|;
      var works := Attempt(healthy);
      if !works {
        n := *;
        if n > |p| { n := 0; }
        ok := false;
      }
      WritingIsGood(maxSize, archives, dir, active.value, book, p[..n]);
      active, book := Some(active.value + p[..n]), book.(written := book.written + p[..n]);
    }

    /** A record goes whole into the active file, which is rotated first when it would grow over
        the limit; a failed write leaves a prefix of the record. */
    method Write(p: seq<Byte>, now: nat, moves: bool) returns (ok: bool, n: nat)
      requires Valid()
      modifies this
      ensures Valid() && closed == old(closed)
      ensures closed || old(handle) != Live || |p| > maxSize ==>
        !ok && n == 0 && dir == old(dir) && active == old(active) && handle == old(handle)
      ensures book.last == old(book).last || book.last == now
      ensures book.fits == old(book).fits && (old(book).increasing && now > old(book).last ==> book.increasing)
      ensures n <= |p| && book.written == old(book).written + p[..n] && (ok ==> n == |p|)
      ensures ok && (old(Current()) == [] || |old(Current())| + |p| <= maxSize) ==>
        dir == old(dir) && Current() == old(Current()) + p
      ensures ok && old(Current()) != [] && |old(Current())| + |p| > maxSize ==>
        Keeps(old(dir)[now := old(Current())], dir) && Current() == p && book.owed == 0 && !book.gap
      ensures book.owed <= old(book).owed + 1 && (book.gap ==> old(book).gap || old(book).owed > 0)
      ensures healthy && moves && !closed && old(handle) == Live && |p| <= maxSize ==> ok
      ensures healthy && old(handle) == Live ==> handle == Live
    {
      assert p[..0] == [] && p[..|p|] == p && book.written + [] == book.written;
      ok, n := false, 0;
      if closed || handle != Live || |p| > maxSize { return; }
      ok := Attempt(healthy);
      if ok {
        ok := MakeRoom(|p|, now, moves);
        var works := Attempt(healthy);
        if ok && works {
          ok, n := Append(p);
        } else {
          ok := false;
        }
      }
    }

    /** The newest lines over the active file and then the archives, newest first. */
    method ReadTail(limit: int, naming: nat -> string, activeName: string)
        returns (r: Result<(seq<Line>, bool)>, ghost names: seq<nat>, ghost spans: seq<Span>)
      requires Valid()
      ensures r.Err? <==> closed || (handle.Dead? && active.Some?)
      ensures r.Ok? ==> IsInventory(names, dir)
      ensures r.Ok? ==>
        var files := Listing(naming, activeName, dir, active, names);
        && |r.value.0| <= Clamp(limit) && Shown(files, r.value.0, spans)
        && (forall i, j | 0 <= i < j < |spans| :: Newer(spans[i], spans[j]))
        && Gapless(files, spans)
        && (!r.value.1 ==> forall s :: IsSpan(files, s) ==> s in spans)
        && (|r.value.0| < Clamp(limit) ==> BudgetUsed(files, spans))
    {
      if closed { return Err, [], []; }
      // The active file is measured through the manager's own descriptor.
      if handle.Dead? && active.Some? { return Err, [], []; }
      var order := Inventory(dir);
      var lines, truncated, read, found := Read(Listing(naming, activeName, dir, active, order), limit);
      return Ok((lines, truncated)), order, found;
    }

    method Close()
      requires Valid()
      modifies this`closed
      ensures Valid() && closed
    {
      closed := true;
    }
  }
}
