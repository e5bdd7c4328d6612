/** The JSON rules that the agent submits to nft, and its tolerant reader of what nft
    prints back: the reader is sound for packets, and it recovers every generated atom
    from each form nft may print it in. */
module FirewallListing {
  import opened Common
  import opened FirewallRules

  type Node = Json<real>

  /** Address text: `parse` reads an address or a network, `show` prints an address,
      `slash` joins the text of an address with a length. */
  datatype AddressText = AddressText(parse: string -> Source, show: Addr -> string, slash: (string, int) -> string)

  ghost predicate Lawful(t: AddressText) {
    && t.parse("") == Unreadable
    && (forall n :: t.parse(t.slash("", n)) == Unreadable)
    && (forall a :: ValidAddr(a) ==> t.parse(t.show(a)) == Address(a, false))
    && (forall a, n: nat :: ValidAddr(a) && n <= Width(a.family) ==>
          t.parse(t.slash(t.show(a), n)) == Network(Prefix(a, n)))
  }

  // ----- Reading JSON loosely -----

  function Fields(v: Node): map<string, Node> {
    if v.Obj? then v.fields else map[]
  }

  function Get(m: map<string, Node>, key: string): Node {
    if key in m then m[key] else Null
  }

  function Text(v: Node): string {
    if v.Str? then v.s else ""
  }

  function Integer(v: Node): int {
    if v.Num? && v.n == v.n.Floor as real then v.n.Floor else -999999
  }

  // ----- The reader -----

  /** Selectors met so far; each kind at most once. */
  datatype Seen = Seen(family: Option<Family>, l4: Option<Proto>, port: Option<(Proto, int)>,
                       source: Option<Prefix>, verdict: Option<Verdict>)

  const NOTHING := Seen(None, None, None, None, None)

  function FamilyValue(v: Node): Option<Family> {
    if v == Str("ipv4") then Some(V4)
    else if v == Str("ipv6") then Some(V6)
    else if Integer(v) == 2 then Some(V4)
    else if Integer(v) == 10 then Some(V6)
    else None
  }

  function ProtoValue(v: Node): Option<Proto> {
    if v == Str("tcp") then Some(Tcp)
    else if v == Str("udp") then Some(Udp)
    else if Integer(v) == 6 then Some(Tcp)
    else if Integer(v) == 17 then Some(Udp)
    else None
  }

  function AddressFamily(s: string): Option<Family> {
    if s == "ip" then Some(V4) else if s == "ip6" then Some(V6) else None
  }

  /** The text of a source operand: plain, or an address and a length. */
  function SourceText(t: AddressText, right: Node): Result<string> {
    if right.Obj? then
      var prefix := Fields(Get(right.fields, "prefix"));
      if |right.fields| != 1 || |prefix| != 2 || prefix.Keys - {"addr", "len"} != {} then Err
      else Ok(t.slash(Text(Get(prefix, "addr")), Integer(Get(prefix, "len"))))
    else Ok(Text(right))
  }

  function MetaStep(seen: Seen, key: Node, right: Node): Result<Seen> {
    if key == Str("nfproto") then
      if seen.family.Some? || FamilyValue(right).None? then Err else Ok(seen.(family := FamilyValue(right)))
    else if key == Str("l4proto") then
      if seen.l4.Some? || ProtoValue(right).None? then Err else Ok(seen.(l4 := ProtoValue(right)))
    else Err
  }

  function SourceStep(t: AddressText, seen: Seen, family: Family, right: Node): Result<Seen> {
    var text := SourceText(t, right);
    if text.Err? then Err
    else
      var prefix := CanonPrefix(t.parse(text.value));
      if prefix.None? || prefix.value.addr.family != family then Err else Ok(seen.(source := prefix))
  }

  function PayloadStep(t: AddressText, seen: Seen, field: Node, protocol: Node, right: Node): Result<Seen> {
    if field == Str("dport") then
      if seen.port.Some? || !protocol.Str? || ProtoOf(protocol.s).None? then Err
      else Ok(seen.(port := Some((ProtoOf(protocol.s).value, Integer(right)))))
    else if field == Str("saddr") then
      if seen.source.Some? || !protocol.Str? || AddressFamily(protocol.s).None? then Err
      else SourceStep(t, seen, AddressFamily(protocol.s).value, right)
    else Err
  }

  function MatchStep(t: AddressText, seen: Seen, m: map<string, Node>): Result<Seen> {
    var left := Fields(Get(m, "left"));
    if |m| != 3 || Get(m, "op") != Str("==") || |left| != 1 then Err
    else
      var right := Get(m, "right");
      if Get(left, "meta").Obj? then
        var meta := Fields(Get(left, "meta"));
        if |meta| != 1 then Err else MetaStep(seen, Get(meta, "key"), right)
      else
        var payload := Fields(Get(left, "payload"));
        if |payload| != 2 then Err
        else PayloadStep(t, seen, Get(payload, "field"), Get(payload, "protocol"), right)
  }

  function ReadItem(t: AddressText, seen: Seen, item: Node, last: bool): Result<Seen> {
    var entry := Fields(item);
    if |entry| != 1 then Err
    else if "accept" in entry then
      if entry["accept"] != Null || !last then Err else Ok(seen.(verdict := Some(Accept)))
    else if "drop" in entry then
      if entry["drop"] != Null || !last then Err else Ok(seen.(verdict := Some(Drop)))
    else MatchStep(t, seen, Fields(Get(entry, "match")))
  }

  /** The contradictions and omissions that only the whole expression shows. */
  function Conclude(seen: Seen): Result<Atom> {
    if || seen.port.None? || seen.port.value.1 < 1 || seen.port.value.1 > 65535
       || (seen.l4.Some? && seen.l4.value != seen.port.value.0)
       || (seen.family.Some? && seen.source.Some? && seen.family.value != seen.source.value.addr.family)
       || seen.verdict.None?
       || (seen.verdict == Some(Accept) && seen.source.None?)
       || (seen.verdict == Some(Drop) && (seen.source.Some? || seen.family.Some?))
    then Err
    else Ok(Atom(seen.port.value.0, seen.port.value.1, seen.source, seen.verdict.value))
  }

  /** The state of a left-to-right reader after `i` items; each item is read with
      the knowledge whether it is the last one. */
  function Fold<S>(step: (S, Node, bool) -> Result<S>, start: S, expr: seq<Node>, i: nat): Result<S>
    requires i <= |expr|
  {
    if i == 0 then Ok(start)
    else
      var before := Fold(step, start, expr, i - 1);
      if before.Err? then Err else step(before.value, expr[i - 1], i == |expr|)
  }

  lemma {:induction false} ErrorsStick<S>(step: (S, Node, bool) -> Result<S>, start: S, expr: seq<Node>, i: nat, j: nat)
    requires i <= j <= |expr| && Fold(step, start, expr, i).Err?
    ensures Fold(step, start, expr, j).Err?
  {
    if i < j {
      ErrorsStick(step, start, expr, i, j - 1);
    }
  }

  function Reader(t: AddressText): (Seen, Node, bool) -> Result<Seen> {
    (seen, item, last) => ReadItem(t, seen, item, last)
  }

  function ReadAtom(t: AddressText, expr: seq<Node>): Result<Atom> {
    var seen := Fold(Reader(t), NOTHING, expr, |expr|);
    if seen.Err? then Err else Conclude(seen.value)
  }

  /** The loop over an expression list; it leaves at the first item it refuses. */
  method ReadItems<S>(step: (S, Node, bool) -> Result<S>, start: S, expr: seq<Node>) returns (r: Result<S>)
    ensures r == Fold(step, start, expr, |expr|)
  {
    var seen := start;
    for i := 0 to |expr|
      invariant Fold(step, start, expr, i) == Ok(seen)
    {
      var next := step(seen, expr[i], i + 1 == |expr|);
      if next.Err? {
        ErrorsStick(step, start, expr, i + 1, |expr|);
        return Err;
      }
      seen := next.value;
    }
    r := Ok(seen);
  }

  method ParseFirewallAtom(t: AddressText, raw: Node) returns (r: Result<Atom>)
    ensures r == if raw.Arr? then ReadAtom(t, raw.items) else Err
  {
    if !raw.Arr? { return Err; }
    var seen := ReadItems(Reader(t), NOTHING, raw.items);
    if seen.Err? { return Err; }
    r := Conclude(seen.value);
  }

  // ----- What a printed expression means -----

  function Match(left: Node, right: Node): Node {
    Obj(map["match" := Obj(map["op" := Str("=="), "left" := left, "right" := right])])
  }

  function Meta(key: string): Node {
    Obj(map["meta" := Obj(map["key" := Str(key)])])
  }

  function Payload(protocol: string, field: string): Node {
    Obj(map["payload" := Obj(map["protocol" := Str(protocol), "field" := Str(field)])])
  }

  function PrefixNode(addr: string, len: Node): Node {
    Obj(map["prefix" := Obj(map["addr" := Str(addr), "len" := len])])
  }

  function VerdictNode(v: Verdict): Node {
    Obj(map[(if v.Accept? then "accept" else "drop") := Null])
  }

  function LeftOf(item: Node): Node {
    Get(Fields(Get(Fields(item), "match")), "left")
  }

  function RightOf(item: Node): Node {
    Get(Fields(Get(Fields(item), "match")), "right")
  }

  /** A source operand is plain text or exactly an address with a length. */
  predicate SourceMeans(t: AddressText, right: Node, a: Addr) {
    if right.Str? then Covers(t.parse(right.s), a)
    else
      var prefix := Fields(Get(Fields(right), "prefix"));
      && right == PrefixNode(Text(Get(prefix, "addr")), Get(prefix, "len"))
      && Covers(t.parse(t.slash(Text(prefix["addr"]), Integer(prefix["len"]))), a)
  }

  datatype Operand = MetaKey(key: string) | Header(protocol: string, field: string) | Unknown

  function OperandOf(left: Node): Operand {
    var key := Get(Fields(Get(Fields(left), "meta")), "key");
    var header := Fields(Get(Fields(left), "payload"));
    if left == Meta(Text(key)) then MetaKey(Text(key))
    else if left == Payload(Text(Get(header, "protocol")), Text(Get(header, "field"))) then
      Header(Text(Get(header, "protocol")), Text(Get(header, "field")))
    else Unknown
  }

  predicate OperandSelects(t: AddressText, left: Operand, right: Node, pkt: Packet) {
    match left
    case MetaKey(key) =>
      if key == "nfproto" then FamilyValue(right) == Some(pkt.src.family)
      else key == "l4proto" && ProtoValue(right).Some? && pkt.protocol == ProtoValue(right)
    case Header(protocol, field) =>
      if field == "dport" then ProtoOf(protocol).Some? && OnPort(ProtoOf(protocol).value, Integer(right), pkt)
      else field == "saddr" && AddressFamily(protocol) == Some(pkt.src.family) && SourceMeans(t, right, pkt.src)
    case Unknown => false
  }

  /** The packets one printed item lets through. A named payload carries its own
      protocol; a printed verdict restricts nothing. */
  predicate Selects(t: AddressText, item: Node, pkt: Packet) {
    || item == VerdictNode(Accept)
    || item == VerdictNode(Drop)
    || (item == Match(LeftOf(item), RightOf(item)) && OperandSelects(t, OperandOf(LeftOf(item)), RightOf(item), pkt))
  }

  ghost predicate SelectsAll(t: AddressText, expr: seq<Node>, i: nat, pkt: Packet)
    requires i <= |expr|
  {
    forall k | 0 <= k < i :: Selects(t, expr[k], pkt)
  }

  /** The packets that the selectors met so far let through. */
  ghost predicate Admits(seen: Seen, pkt: Packet) {
    && (seen.family.Some? ==> seen.family.value == pkt.src.family)
    && (seen.l4.Some? ==> pkt.protocol == seen.l4)
    && (seen.port.Some? ==> OnPort(seen.port.value.0, seen.port.value.1, pkt))
    && (seen.source.Some? ==> Contains(seen.source.value, pkt.src))
  }

  lemma OneKey(m: map<string, Node>, k: string)
    requires |m| == 1 && k in m
    ensures m == map[k := m[k]]
  {
    KeysFromSize(m, {k});
  }

  lemma KeysFromSize(m: map<string, Node>, keys: set<string>)
    requires keys <= m.Keys && |m| == |keys|
    ensures m.Keys == keys
  {
    assert |m.Keys - keys| == |m.Keys| - |keys|;
  }

  lemma TwoKeys(m: map<string, Node>, j: string, k: string)
    requires |m| == 2 && j != k && j in m && k in m
    ensures m == map[j := m[j], k := m[k]]
  {
    assert |{j, k}| == 2;
    KeysFromSize(m, {j, k});
  }

  lemma MatchShape(m: map<string, Node>)
    requires |m| == 3 && "op" in m && "left" in m && "right" in m && m["op"] == Str("==")
    ensures Obj(map["match" := Obj(m)]) == Match(m["left"], m["right"])
  {
    assert |{"op", "left", "right"}| == 3;
    KeysFromSize(m, {"op", "left", "right"});
    assert m == map["op" := Str("=="), "left" := m["left"], "right" := m["right"]];
  }

  // ----- Soundness -----

  ghost predicate PortInRange(seen: Seen) {
    seen.port.Some? ==> 1 <= seen.port.value.1 <= 65535
  }

  lemma MetaShape(left: map<string, Node>, key: string)
    requires |left| == 1 && Get(left, "meta").Obj?
    requires |left["meta"].fields| == 1 && Get(left["meta"].fields, "key") == Str(key)
    ensures Obj(left) == Meta(key) && OperandOf(Obj(left)) == MetaKey(key)
  {
    OneKey(left, "meta");
    OneKey(left["meta"].fields, "key");
  }

  lemma PayloadShape(left: map<string, Node>, protocol: string, field: string)
    requires |left| == 1 && Get(left, "payload").Obj?
    requires var p := left["payload"].fields;
      |p| == 2 && Get(p, "field") == Str(field) && Get(p, "protocol") == Str(protocol)
    ensures Obj(left) == Payload(protocol, field) && OperandOf(Obj(left)) == Header(protocol, field)
  {
    assert "meta" in Meta("").fields;
    OneKey(left, "payload");
    TwoKeys(left["payload"].fields, "protocol", "field");
  }

  lemma SourceShape(t: AddressText, right: Node, a: Addr)
    requires Lawful(t) && SourceText(t, right).Ok? && CanonPrefix(t.parse(SourceText(t, right).value)).Some?
    ensures SourceMeans(t, right, a) <==> Covers(t.parse(SourceText(t, right).value), a)
  {
    if right.Obj? {
      var prefix := Fields(Get(right.fields, "prefix"));
      assert prefix.Keys <= {"addr", "len"};
      SubsetOfTwo(prefix.Keys, "addr", "len");
      OneKey(right.fields, "prefix");
      TwoKeys(prefix, "addr", "len");
    }
  }

  lemma SubsetOfTwo(keys: set<string>, j: string, k: string)
    requires keys <= {j, k} && |keys| == 2
    ensures j in keys && k in keys
  {
    if j !in keys {
      SizeOfPart(keys, {k});
    }
    if k !in keys {
      SizeOfPart(keys, {j});
    }
  }

  lemma SizeOfPart(part: set<string>, whole: set<string>)
    requires part <= whole
    ensures |part| <= |whole|
  {
    assert |whole - part| == |whole| - |part|;
  }

  lemma MetaSound(t: AddressText, seen: Seen, key: string, right: Node, pkt: Packet)
    requires MetaStep(seen, Str(key), right).Ok?
    ensures Admits(MetaStep(seen, Str(key), right).value, pkt) <==>
            Admits(seen, pkt) && OperandSelects(t, MetaKey(key), right, pkt)
  {}

  lemma SourceSound(t: AddressText, seen: Seen, family: Family, right: Node, pkt: Packet)
    requires Lawful(t) && seen.source.None? && SourceStep(t, seen, family, right).Ok?
    ensures Admits(SourceStep(t, seen, family, right).value, pkt) <==>
            Admits(seen, pkt) && family == pkt.src.family && SourceMeans(t, right, pkt.src)
  {
    var source := t.parse(SourceText(t, right).value);
    SourceShape(t, right, pkt.src);
    CanonPrefixMeaning(source, pkt.src);
    assert Contains(CanonPrefix(source).value, pkt.src) ==> family == pkt.src.family;
  }

  lemma PayloadSound(t: AddressText, seen: Seen, protocol: string, field: string, right: Node, pkt: Packet)
    requires Lawful(t) && PayloadStep(t, seen, Str(field), Str(protocol), right).Ok?
    ensures Admits(PayloadStep(t, seen, Str(field), Str(protocol), right).value, pkt) <==>
            Admits(seen, pkt) && OperandSelects(t, Header(protocol, field), right, pkt)
  {
    if field == "saddr" {
      SourceSound(t, seen, AddressFamily(protocol).value, right, pkt);
    }
  }

  lemma MatchSound(t: AddressText, seen: Seen, m: map<string, Node>, pkt: Packet)
    requires Lawful(t) && MatchStep(t, seen, m).Ok? && PortInRange(MatchStep(t, seen, m).value)
    ensures Admits(MatchStep(t, seen, m).value, pkt) <==>
            Admits(seen, pkt) && Selects(t, Obj(map["match" := Obj(m)]), pkt)
  {
    var left, right := Fields(Get(m, "left")), Get(m, "right");
    assert "right" in m && "left" in m && m["left"] == Obj(left);
    MatchSelects(t, m, pkt);
    if Get(left, "meta").Obj? {
      var key := Get(Fields(Get(left, "meta")), "key");
      MetaShape(left, key.s);
      MetaSound(t, seen, key.s, right, pkt);
    } else {
      var payload := Fields(Get(left, "payload"));
      var field, protocol := Get(payload, "field"), Get(payload, "protocol");
      PayloadShape(left, protocol.s, field.s);
      PayloadSound(t, seen, protocol.s, field.s, right, pkt);
    }
  }

  lemma MatchSelects(t: AddressText, m: map<string, Node>, pkt: Packet)
    requires |m| == 3 && "op" in m && "left" in m && "right" in m && m["op"] == Str("==")
    ensures Selects(t, Obj(map["match" := Obj(m)]), pkt) <==> OperandSelects(t, OperandOf(m["left"]), m["right"], pkt)
  {
    var item: Node := Obj(map["match" := Obj(m)]);
    assert "accept" !in item.fields && "drop" !in item.fields;
    assert "accept" in VerdictNode(Accept).fields && "drop" in VerdictNode(Drop).fields;
    MatchShape(m);
  }

  lemma ItemSound(t: AddressText, seen: Seen, item: Node, last: bool, pkt: Packet)
    requires Lawful(t) && ReadItem(t, seen, item, last).Ok? && PortInRange(ReadItem(t, seen, item, last).value)
    ensures var next := ReadItem(t, seen, item, last).value;
      && PortInRange(seen)
      && (Admits(next, pkt) <==> Admits(seen, pkt) && Selects(t, item, pkt))
      && (next.verdict == seen.verdict || (last && next.verdict.Some? && item == VerdictNode(next.verdict.value)))
  {
    var entry := Fields(item);
    if "accept" in entry {
      OneKey(entry, "accept");
    } else if "drop" in entry {
      OneKey(entry, "drop");
    } else {
      assert "match" in entry;
      OneKey(entry, "match");
      MatchSound(t, seen, Fields(entry["match"]), pkt);
    }
  }

  /** A reader whose every step keeps `adm` equal to what was let through so far. */
  lemma {:induction false} FoldMeans<S(!new)>(step: (S, Node, bool) -> Result<S>, start: S, expr: seq<Node>, i: nat,
                                              good: S -> bool, adm: S -> bool, sel: Node -> bool)
    requires i <= |expr| && Fold(step, start, expr, i).Ok? && good(Fold(step, start, expr, i).value) && adm(start)
    requires forall s, item, last :: step(s, item, last).Ok? && good(step(s, item, last).value) ==>
      good(s) && (adm(step(s, item, last).value) <==> adm(s) && sel(item))
    ensures adm(Fold(step, start, expr, i).value) <==> forall k | 0 <= k < i :: sel(expr[k])
  {
    if i > 0 {
      var before := Fold(step, start, expr, i - 1).value;
      assert step(before, expr[i - 1], i == |expr|).Ok?;
      FoldMeans(step, start, expr, i - 1, good, adm, sel);
    }
  }

  /** A reader that sets its mark only at the last item. */
  lemma {:induction false} FoldEnds<S(!new)>(step: (S, Node, bool) -> Result<S>, start: S, expr: seq<Node>, i: nat,
                                             good: S -> bool, ended: (S, Node) -> bool, mark: S -> bool)
    requires i <= |expr| && Fold(step, start, expr, i).Ok? && good(Fold(step, start, expr, i).value) && !mark(start)
    requires forall s, item, last :: step(s, item, last).Ok? && good(step(s, item, last).value) ==>
      good(s) && (mark(step(s, item, last).value) ==> mark(s) || (last && ended(step(s, item, last).value, item)))
    ensures mark(Fold(step, start, expr, i).value) ==>
      i == |expr| > 0 && ended(Fold(step, start, expr, i).value, expr[i - 1])
  {
    if i > 0 {
      var before := Fold(step, start, expr, i - 1).value;
      assert step(before, expr[i - 1], i == |expr|).Ok?;
      FoldEnds(step, start, expr, i - 1, good, ended, mark);
    }
  }

  lemma FoldSound(t: AddressText, expr: seq<Node>, pkt: Packet)
    requires Lawful(t) && Fold(Reader(t), NOTHING, expr, |expr|).Ok?
    requires PortInRange(Fold(Reader(t), NOTHING, expr, |expr|).value)
    ensures var seen := Fold(Reader(t), NOTHING, expr, |expr|).value;
      && (Admits(seen, pkt) <==> SelectsAll(t, expr, |expr|, pkt))
      && (seen.verdict.Some? ==> expr != [] && expr[|expr| - 1] == VerdictNode(seen.verdict.value))
  {
    var step := Reader(t);
    var good := (s: Seen) => PortInRange(s);
    var adm := (s: Seen) => Admits(s, pkt);
    var sel := (item: Node) => Selects(t, item, pkt);
    var mark := (s: Seen) => s.verdict.Some?;
    var ended := (s: Seen, item: Node) => s.verdict.Some? && item == VerdictNode(s.verdict.value);
    forall s, item, last | step(s, item, last).Ok? && good(step(s, item, last).value)
      ensures good(s) && (adm(step(s, item, last).value) <==> adm(s) && sel(item))
      ensures mark(step(s, item, last).value) ==> mark(s) || (last && ended(step(s, item, last).value, item))
    {
      ItemSound(t, s, item, last, pkt);
    }
    FoldMeans(step, NOTHING, expr, |expr|, good, adm, sel);
    FoldEnds(step, NOTHING, expr, |expr|, good, ended, mark);
  }

  /** Whatever the reader accepts ends in the atom's verdict and lets through exactly
      the packets the atom describes. */
  lemma ReaderIsSound(t: AddressText, expr: seq<Node>, pkt: Packet)
    requires Lawful(t) && ReadAtom(t, expr).Ok?
    ensures var a := ReadAtom(t, expr).value;
      && expr != [] && expr[|expr| - 1] == VerdictNode(a.verdict)
      && (SelectsAll(t, expr, |expr|, pkt) <==> AtomMatches(a, pkt))
  {
    FoldSound(t, expr, pkt);
  }

  // ----- A printed chain -----

  predicate EndsInVerdict(expr: seq<Node>) {
    expr != [] && (expr[|expr| - 1] == VerdictNode(Accept) || expr[|expr| - 1] == VerdictNode(Drop))
  }

  /** The kernel's reading of printed rules: the first rule all of whose items let the
      packet through gives its verdict. */
  ghost function Judge(t: AddressText, rules: seq<seq<Node>>, pkt: Packet): Verdict
    requires forall r | r in rules :: EndsInVerdict(r)
  {
    if rules == [] then Accept
    else if SelectsAll(t, rules[0], |rules[0]|, pkt) then
      assert EndsInVerdict(rules[0]);
      if rules[0][|rules[0]| - 1] == VerdictNode(Accept) then Accept else Drop
    else Judge(t, rules[1..], pkt)
  }

  ghost predicate ReadsAs(t: AddressText, rules: seq<seq<Node>>, atoms: seq<Atom>) {
    |rules| == |atoms| && forall i | 0 <= i < |rules| :: ReadAtom(t, rules[i]) == Ok(atoms[i])
  }

  lemma {:induction false} ListingMeaning(t: AddressText, rules: seq<seq<Node>>, atoms: seq<Atom>, pkt: Packet)
    requires Lawful(t) && ReadsAs(t, rules, atoms)
    ensures forall r | r in rules :: EndsInVerdict(r)
    ensures Judge(t, rules, pkt) == Evaluate(atoms, pkt)
  {
    if rules != [] {
      assert ReadAtom(t, rules[0]) == Ok(atoms[0]);
      ReaderIsSound(t, rules[0], pkt);
      VerdictsDiffer();
      ListingMeaning(t, rules[1..], atoms[1..], pkt);
      assert rules == [rules[0]] + rules[1..];
    }
  }

  lemma VerdictsDiffer()
    ensures VerdictNode(Accept) != VerdictNode(Drop)
  {
    assert "accept" in VerdictNode(Accept).fields && "accept" !in VerdictNode(Drop).fields;
  }

  // ----- Tolerance -----

  /** The forms in which nft may print one selector of a generated rule. */
  datatype Form = FamilyForm(numeric: bool) | ProtoForm(numeric: bool) | PortForm | SourceForm(plain: bool)

  predicate SameKind(a: Form, b: Form) {
    a.FamilyForm? == b.FamilyForm? && a.ProtoForm? == b.ProtoForm? && a.PortForm? == b.PortForm?
  }

  function FamilyText(f: Family): string { if f.V4? then "ip" else "ip6" }

  function PrintSource(t: AddressText, p: Prefix, plain: bool): Node {
    if plain then Str(t.show(p.addr)) else PrefixNode(t.show(p.addr), Num(p.len as real))
  }

  function PrintFamily(f: Family, numeric: bool): Node {
    if numeric then Num(if f.V4? then 2.0 else 10.0) else Str(if f.V4? then "ipv4" else "ipv6")
  }

  function PrintProto(p: Proto, numeric: bool): Node {
    if numeric then Num(if p.Tcp? then 6.0 else 17.0) else Str(ProtoText(p))
  }

  function Print(t: AddressText, a: Atom, f: Form): Node
    requires a.cidr.None? ==> !f.FamilyForm? && !f.SourceForm?
  {
    match f
    case FamilyForm(numeric) => Match(Meta("nfproto"), PrintFamily(a.cidr.value.addr.family, numeric))
    case ProtoForm(numeric) => Match(Meta("l4proto"), PrintProto(a.protocol, numeric))
    case PortForm => Match(Payload(ProtoText(a.protocol), "dport"), Num(a.port as real))
    case SourceForm(plain) =>
      Match(Payload(FamilyText(a.cidr.value.addr.family), "saddr"), PrintSource(t, a.cidr.value, plain))
  }

  /** The atoms that compilation produces. */
  predicate Generated(a: Atom) {
    && 1 <= a.port <= 65535
    && (a.cidr.Some? <==> a.verdict.Accept?)
    && (a.cidr.Some? ==> CanonPrefix(Network(a.cidr.value)) == a.cidr)
  }

  /** Each selector at most once, in any order; only the redundant ones may be missing;
      a plain address only for a full-length prefix. */
  ghost predicate Printable(a: Atom, forms: seq<Form>) {
    && (forall i, j :: 0 <= i < j < |forms| ==> !SameKind(forms[i], forms[j]))
    && PortForm in forms
    && (a.cidr.None? ==> forall f | f in forms :: f.ProtoForm? || f.PortForm?)
    && (a.cidr.Some? ==> exists f :: f in forms && f.SourceForm?)
    && (a.cidr.Some? ==>
          forall f | f in forms && f.SourceForm? && f.plain :: a.cidr.value.len == Width(a.cidr.value.addr.family))
  }

  function PrintAll(t: AddressText, a: Atom, forms: seq<Form>): (r: seq<Node>)
    requires a.cidr.None? ==> forall f | f in forms :: !f.FamilyForm? && !f.SourceForm?
    ensures |r| == |forms| + 1 && r[|forms|] == VerdictNode(a.verdict)
    ensures forall i | 0 <= i < |forms| :: r[i] == Print(t, a, forms[i])
  {
    seq(|forms|, i requires 0 <= i < |forms| => Print(t, a, forms[i])) + [VerdictNode(a.verdict)]
  }

  /** Which kinds of selector a prefix of the forms holds. */
  datatype Kinds = Kinds(family: bool, proto: bool, port: bool, source: bool)

  ghost function KindsAt(forms: seq<Form>, i: nat): Kinds
    requires i <= |forms|
  {
    Kinds(exists k :: 0 <= k < i && forms[k].FamilyForm?, exists k :: 0 <= k < i && forms[k].ProtoForm?,
          exists k :: 0 <= k < i && forms[k].PortForm?, exists k :: 0 <= k < i && forms[k].SourceForm?)
  }

  /** What the reader should have collected once it has met those kinds. */
  function Collected(a: Atom, kinds: Kinds): Seen {
    Seen(if kinds.family && a.cidr.Some? then Some(a.cidr.value.addr.family) else None,
         if kinds.proto then Some(a.protocol) else None,
         if kinds.port then Some((a.protocol, a.port)) else None,
         if kinds.source then a.cidr else None,
         None)
  }

  function Add(kinds: Kinds, f: Form): Kinds {
    match f
    case FamilyForm(_) => kinds.(family := true)
    case ProtoForm(_) => kinds.(proto := true)
    case PortForm => kinds.(port := true)
    case SourceForm(_) => kinds.(source := true)
  }

  predicate Has(kinds: Kinds, f: Form) {
    match f
    case FamilyForm(_) => kinds.family
    case ProtoForm(_) => kinds.proto
    case PortForm => kinds.port
    case SourceForm(_) => kinds.source
  }

  lemma ReadMatch(t: AddressText, seen: Seen, left: Node, right: Node, last: bool)
    ensures var m := map["op" := Str("=="), "left" := left, "right" := right];
      ReadItem(t, seen, Match(left, right), last) == MatchStep(t, seen, m) && |m| == 3
  {
    var m := map["op" := Str("=="), "left" := left, "right" := right];
    assert m.Keys == {"op", "left", "right"};
    assert |m.Keys| == 3;
    var entry := Match(left, right).fields;
    assert entry.Keys == {"match"};
    assert |entry.Keys| == 1;
  }

  lemma ReadMetaMatch(t: AddressText, seen: Seen, key: string, right: Node)
    ensures ReadItem(t, seen, Match(Meta(key), right), false) == MetaStep(seen, Str(key), right)
  {
    ReadMatch(t, seen, Meta(key), right, false);
    assert Meta(key).fields.Keys == {"meta"} && |Meta(key).fields.Keys| == 1;
    var inner := Meta(key).fields["meta"].fields;
    assert inner.Keys == {"key"} && |inner.Keys| == 1;
  }

  lemma ReadPayloadMatch(t: AddressText, seen: Seen, protocol: string, field: string, right: Node)
    ensures ReadItem(t, seen, Match(Payload(protocol, field), right), false)
         == PayloadStep(t, seen, Str(field), Str(protocol), right)
  {
    ReadMatch(t, seen, Payload(protocol, field), right, false);
    assert Payload(protocol, field).fields.Keys == {"payload"} && |Payload(protocol, field).fields.Keys| == 1;
    var inner := Payload(protocol, field).fields["payload"].fields;
    assert inner.Keys == {"protocol", "field"} && |inner.Keys| == 2;
  }

  /** Both printed forms of a source read back as its canonical prefix. */
  lemma ReadSource(t: AddressText, seen: Seen, p: Prefix, plain: bool)
    requires Lawful(t) && CanonPrefix(Network(p)) == Some(p) && (plain ==> p.len == Width(p.addr.family))
    ensures SourceStep(t, seen, p.addr.family, PrintSource(t, p, plain)) == Ok(seen.(source := Some(p)))
  {
    assert ValidPrefix(p);
    if plain {
      assert t.parse(t.show(p.addr)) == Address(p.addr, false);
    } else {
      var right := PrefixNode(t.show(p.addr), Num(p.len as real));
      assert right.fields.Keys == {"prefix"} && |right.fields.Keys| == 1;
      var inner := right.fields["prefix"].fields;
      assert inner.Keys == {"addr", "len"} && |inner.Keys| == 2;
      assert Integer(inner["len"]) == p.len;
      assert t.parse(t.slash(t.show(p.addr), p.len)) == Network(Prefix(p.addr, p.len));
    }
  }

  /** One printed selector, read after the others met so far. */
  lemma ReadForm(t: AddressText, a: Atom, kinds: Kinds, f: Form)
    requires Lawful(t) && Generated(a) && !Has(kinds, f)
    requires a.cidr.None? ==> !f.FamilyForm? && !f.SourceForm?
    requires f.SourceForm? && f.plain ==> a.cidr.value.len == Width(a.cidr.value.addr.family)
    ensures ReadItem(t, Collected(a, kinds), Print(t, a, f), false) == Ok(Collected(a, Add(kinds, f)))
  {
    var seen := Collected(a, kinds);
    if f.FamilyForm? {
      var family := a.cidr.value.addr.family;
      FamilyReads(family, f.numeric);
      ReadFamilyForm(t, seen, PrintFamily(family, f.numeric), family);
    } else if f.ProtoForm? {
      ProtoReads(a.protocol, f.numeric);
      ReadProtoForm(t, seen, PrintProto(a.protocol, f.numeric), a.protocol);
    } else if f.PortForm? {
      ReadPortForm(t, seen, a.protocol, a.port);
    } else {
      ReadSourceForm(t, seen, a.cidr.value, f.plain);
    }
  }

  lemma ReadPortForm(t: AddressText, seen: Seen, protocol: Proto, port: int)
    requires seen.port.None?
    ensures ReadItem(t, seen, Match(Payload(ProtoText(protocol), "dport"), Num(port as real)), false)
         == Ok(seen.(port := Some((protocol, port))))
  {
    ReadPayloadMatch(t, seen, ProtoText(protocol), "dport", Num(port as real));
  }

  lemma FamilyReads(f: Family, numeric: bool)
    ensures FamilyValue(PrintFamily(f, numeric)) == Some(f)
  {}

  lemma ProtoReads(p: Proto, numeric: bool)
    ensures ProtoValue(PrintProto(p, numeric)) == Some(p)
  {}

  lemma FamilyStep(seen: Seen, right: Node, f: Family)
    requires seen.family.None? && FamilyValue(right) == Some(f)
    ensures MetaStep(seen, Str("nfproto"), right) == Ok(seen.(family := Some(f)))
  {}

  lemma ProtoStep(seen: Seen, right: Node, p: Proto)
    requires seen.l4.None? && ProtoValue(right) == Some(p)
    ensures MetaStep(seen, Str("l4proto"), right) == Ok(seen.(l4 := Some(p)))
  {}

  lemma ReadFamilyForm(t: AddressText, seen: Seen, right: Node, f: Family)
    requires seen.family.None? && FamilyValue(right) == Some(f)
    ensures ReadItem(t, seen, Match(Meta("nfproto"), right), false) == Ok(seen.(family := Some(f)))
  {
    ReadMetaMatch(t, seen, "nfproto", right);
    FamilyStep(seen, right, f);
  }

  lemma ReadProtoForm(t: AddressText, seen: Seen, right: Node, p: Proto)
    requires seen.l4.None? && ProtoValue(right) == Some(p)
    ensures ReadItem(t, seen, Match(Meta("l4proto"), right), false) == Ok(seen.(l4 := Some(p)))
  {
    ReadMetaMatch(t, seen, "l4proto", right);
    ProtoStep(seen, right, p);
  }

  lemma SourcePayload(t: AddressText, seen: Seen, f: Family, right: Node)
    requires seen.source.None?
    ensures PayloadStep(t, seen, Str("saddr"), Str(FamilyText(f)), right) == SourceStep(t, seen, f, right)
  {}

  lemma ReadSourceForm(t: AddressText, seen: Seen, p: Prefix, plain: bool)
    requires Lawful(t) && CanonPrefix(Network(p)) == Some(p) && seen.source.None?
    requires plain ==> p.len == Width(p.addr.family)
    ensures ReadItem(t, seen, Match(Payload(FamilyText(p.addr.family), "saddr"), PrintSource(t, p, plain)), false)
         == Ok(seen.(source := Some(p)))
  {
    ReadSource(t, seen, p, plain);
    SourcePayload(t, seen, p.addr.family, PrintSource(t, p, plain));
    ReadPayloadMatch(t, seen, FamilyText(p.addr.family), "saddr", PrintSource(t, p, plain));
  }

  /** A reader that follows a known track. */
  lemma {:induction false} FoldTracks<S>(step: (S, Node, bool) -> Result<S>, start: S, expr: seq<Node>, n: nat,
                                         track: seq<S>)
    requires n <= |expr| && |track| > n && track[0] == start
    requires forall k | 0 <= k < n :: step(track[k], expr[k], k + 1 == |expr|) == Ok(track[k + 1])
    ensures Fold(step, start, expr, n) == Ok(track[n])
  {
    if n > 0 {
      FoldTracks(step, start, expr, n - 1, track);
    }
  }

  lemma KindsGrow(forms: seq<Form>, i: nat)
    requires i < |forms| && forall j, k :: 0 <= j < k < |forms| ==> !SameKind(forms[j], forms[k])
    ensures KindsAt(forms, i + 1) == Add(KindsAt(forms, i), forms[i]) && !Has(KindsAt(forms, i), forms[i])
  {
    forall k | 0 <= k < i ensures !SameKind(forms[k], forms[i]) {}
  }

  lemma TrackForms(step: (Seen, Node, bool) -> Result<Seen>, a: Atom, forms: seq<Form>, expr: seq<Node>)
    requires |expr| == |forms| + 1
    requires forall j, k :: 0 <= j < k < |forms| ==> !SameKind(forms[j], forms[k])
    requires forall k, kinds | 0 <= k < |forms| && !Has(kinds, forms[k]) ::
      step(Collected(a, kinds), expr[k], false) == Ok(Collected(a, Add(kinds, forms[k])))
    ensures Fold(step, NOTHING, expr, |forms|) == Ok(Collected(a, KindsAt(forms, |forms|)))
  {
    var track := seq(|forms| + 1, i requires 0 <= i <= |forms| => Collected(a, KindsAt(forms, i)));
    forall k | 0 <= k < |forms| ensures step(track[k], expr[k], k + 1 == |expr|) == Ok(track[k + 1]) {
      KindsGrow(forms, k);
    }
    FoldTracks(step, NOTHING, expr, |forms|, track);
  }

  lemma ReadVerdict(t: AddressText, seen: Seen, v: Verdict)
    ensures ReadItem(t, seen, VerdictNode(v), true) == Ok(seen.(verdict := Some(v)))
  {
    var entry := VerdictNode(v).fields;
    assert entry.Keys == {if v.Accept? then "accept" else "drop"} && |entry.Keys| == 1;
  }

  lemma FormsCollect(t: AddressText, a: Atom, forms: seq<Form>)
    requires Lawful(t) && Generated(a) && Printable(a, forms)
    ensures Fold(Reader(t), NOTHING, PrintAll(t, a, forms), |forms|) == Ok(Collected(a, KindsAt(forms, |forms|)))
  {
    var expr := PrintAll(t, a, forms);
    forall k, kinds | 0 <= k < |forms| && !Has(kinds, forms[k])
      ensures Reader(t)(Collected(a, kinds), expr[k], false) == Ok(Collected(a, Add(kinds, forms[k])))
    {
      assert forms[k] in forms;
      ReadForm(t, a, kinds, forms[k]);
    }
    TrackForms(Reader(t), a, forms, expr);
  }

  /** Every printed form of a generated rule reads back as the atom it came from. */
  lemma ReaderIsTolerant(t: AddressText, a: Atom, forms: seq<Form>)
    requires Lawful(t) && Generated(a) && Printable(a, forms)
    ensures ReadAtom(t, PrintAll(t, a, forms)) == Ok(a)
  {
    var seen := Collected(a, KindsAt(forms, |forms|));
    var expr := PrintAll(t, a, forms);
    FormsCollect(t, a, forms);
    ReadVerdict(t, seen, a.verdict);
    FoldLast(Reader(t), NOTHING, expr, seen, seen.(verdict := Some(a.verdict)));
    ConcludeCollected(a, forms);
  }

  lemma FoldLast<S>(step: (S, Node, bool) -> Result<S>, start: S, expr: seq<Node>, before: S, after: S)
    requires expr != [] && Fold(step, start, expr, |expr| - 1) == Ok(before)
    requires step(before, expr[|expr| - 1], true) == Ok(after)
    ensures Fold(step, start, expr, |expr|) == Ok(after)
  {}

  lemma ConcludeCollected(a: Atom, forms: seq<Form>)
    requires Generated(a) && Printable(a, forms)
    ensures Conclude(Collected(a, KindsAt(forms, |forms|)).(verdict := Some(a.verdict))) == Ok(a)
  {
    PrintableKinds(a, forms);
  }

  lemma PrintableKinds(a: Atom, forms: seq<Form>)
    requires Printable(a, forms)
    ensures var kinds := KindsAt(forms, |forms|);
      kinds.port && (a.cidr.Some? ==> kinds.source) && (a.cidr.None? ==> !kinds.source && !kinds.family)
  {
    var k :| 0 <= k < |forms| && forms[k] == PortForm;
    if a.cidr.Some? {
      var f :| f in forms && f.SourceForm?;
      var j :| 0 <= j < |forms| && forms[j] == f;
    } else {
      forall j | 0 <= j < |forms| ensures forms[j].ProtoForm? || forms[j].PortForm? {
        assert forms[j] in forms;
      }
    }
  }

  /** The expression list the agent submits for an atom. */
  function BatchForms(a: Atom): seq<Form> {
    if a.cidr.Some? then [FamilyForm(false), ProtoForm(false), PortForm, SourceForm(false)]
    else [ProtoForm(false), PortForm]
  }

  function BatchRules(t: AddressText, atoms: seq<Atom>): (r: seq<seq<Node>>)
    ensures |r| == |atoms| && forall i | 0 <= i < |atoms| :: r[i] == PrintAll(t, atoms[i], BatchForms(atoms[i]))
  {
    seq(|atoms|, i requires 0 <= i < |atoms| => PrintAll(t, atoms[i], BatchForms(atoms[i])))
  }

  lemma BatchIsPrintable(a: Atom)
    ensures Printable(a, BatchForms(a))
  {
    var forms := BatchForms(a);
    if a.cidr.Some? {
      assert forms[3] == SourceForm(false) && forms[3] in forms && forms[2] in forms;
    } else {
      assert forms[1] in forms;
    }
  }

  lemma {:induction false} AcceptsAreGenerated(rule: Rule, cidrs: seq<Prefix>)
    requires 1 <= rule.port <= 65535 && forall p | p in cidrs :: CanonPrefix(Network(p)) == Some(p)
    ensures forall a | a in AcceptAtoms(rule, cidrs) :: Generated(a)
  {
    if cidrs != [] {
      AcceptsAreGenerated(rule, cidrs[1..]);
    }
  }

  lemma {:induction false} AtomsAreGenerated(rules: seq<Rule>)
    requires forall r | r in rules ::
      1 <= r.port <= 65535 && forall p | p in r.cidrs :: CanonPrefix(Network(p)) == Some(p)
    ensures forall a | a in Atoms(rules) :: Generated(a)
  {
    if rules != [] {
      assert rules[0] in rules;
      AcceptsAreGenerated(rules[0], rules[0].cidrs);
      AtomsAreGenerated(rules[1..]);
    }
  }

  /** The batch compiled from any accepted request reads back as its own atoms. */
  lemma BatchReadsBack(le: (Prefix, Prefix) -> bool, raw: RawRequest, t: AddressText)
    requires TotalPreorder(le) && Acceptable(raw) && Lawful(t)
    ensures var atoms := Atoms(Canonical(le, raw).rules); ReadsAs(t, BatchRules(t, atoms), atoms)
  {
    var rules := Canonical(le, raw).rules;
    forall r | r in rules
      ensures 1 <= r.port <= 65535 && forall p | p in r.cidrs :: CanonPrefix(Network(p)) == Some(p)
    {
      CanonicalRules(le, raw, r);
      var from :| from in raw.rules.value && CanonRule(le, from) == r;
      assert RuleOk(from);
      CanonCidrsFacts(le, from.sources);
      forall p | p in r.cidrs ensures CanonPrefix(Network(p)) == Some(p) {
        var s :| s in from.sources && CanonPrefix(s).value == p;
        CanonPrefixIdempotent(s);
      }
    }
    AtomsAreGenerated(rules);
    var atoms := Atoms(rules);
    forall i | 0 <= i < |atoms| ensures ReadAtom(t, BatchRules(t, atoms)[i]) == Ok(atoms[i]) {
      assert atoms[i] in atoms;
      BatchIsPrintable(atoms[i]);
      ReaderIsTolerant(t, atoms[i], BatchForms(atoms[i]));
    }
  }
}
