/** What the agent concludes from nft's listing of its table: whether the table is its
    own, whether it holds anything foreign, and which rules it carries. The conclusion is
    sound for packets, and it recognizes every listing of a table the agent has made. */
module FirewallObservation {
  import opened Common
  import opened FirewallRules
  import opened FirewallListing
  import opened FirewallJournal

  type Entry = map<string, Node>

  const TABLE := "aswired_allowlist"
  const OWNER_CHAIN := "owner_"
  const OWNER_TEXT := "ASWired allowlist v1 "

  predicate HexDigit(c: char) {
    '0' <= c <= '9' || 'a' <= c <= 'f'
  }

  /** 32 bytes in lower-case hexadecimal. */
  predicate Token(s: string) {
    |s| == 64 && forall c | c in s :: HexDigit(c)
  }

  // ----- The scan -----

  /** The locals of the scan; `owner` is the token of the ownership proof. */
  datatype Scan = Scan(valid: bool, tables: nat, chains: nat, owners: nat, owner: string, comment: string,
                       hasComment: bool, ownerHasRules: bool, atoms: seq<Atom>)

  const START := Scan(true, 0, 0, 0, "", "", false, false, [])

  predicate OwnTable(m: map<string, Node>) {
    && Get(m, "family") == Str("inet") && Get(m, "name") == Str(TABLE)
    && m.Keys <= {"family", "name", "handle", "comment"}
  }

  predicate OwnerChain(m: map<string, Node>, token: string) {
    && Token(token) && Get(m, "family") == Str("inet") && Get(m, "table") == Str(TABLE)
    && m.Keys <= {"family", "table", "name", "handle"}
  }

  predicate InputChain(m: map<string, Node>) {
    && Get(m, "family") == Str("inet") && Get(m, "table") == Str(TABLE) && Get(m, "name") == Str("input")
    && Get(m, "type") == Str("filter") && Get(m, "hook") == Str("input") && Integer(Get(m, "prio")) == -10
    && Get(m, "policy") == Str("accept")
    && m.Keys <= {"family", "table", "name", "handle", "type", "hook", "prio", "policy"}
  }

  predicate InputRule(m: map<string, Node>) {
    && Get(m, "family") == Str("inet") && Get(m, "table") == Str(TABLE) && Get(m, "chain") == Str("input")
    && m.Keys <= {"family", "table", "chain", "handle", "expr"}
  }

  function ScanTable(s: Scan, m: map<string, Node>): Scan {
    s.(tables := s.tables + 1, comment := Text(Get(m, "comment")), hasComment := "comment" in m,
       valid := s.valid && OwnTable(m))
  }

  function ScanChain(s: Scan, m: map<string, Node>): Scan {
    var name := Text(Get(m, "name"));
    if HasPrefix(name, OWNER_CHAIN) then
      var token := name[|OWNER_CHAIN|..];
      if OwnerChain(m, token) then s.(owners := s.owners + 1, owner := token)
      else s.(owners := s.owners + 1, valid := false)
    else s.(chains := s.chains + 1, valid := s.valid && InputChain(m))
  }

  function ScanRule(t: AddressText, s: Scan, m: map<string, Node>): Scan {
    var expr := Get(m, "expr");
    var atom := if expr.Arr? then ReadAtom(t, expr.items) else Err;
    s.(ownerHasRules := s.ownerHasRules || HasPrefix(Text(Get(m, "chain")), OWNER_CHAIN),
       valid := s.valid && InputRule(m) && atom.Ok?,
       atoms := if atom.Ok? then s.atoms + [atom.value] else s.atoms)
  }

  function ScanEntry(t: AddressText, s: Scan, e: Entry): Scan {
    if "metainfo" in e then s
    else if |e| != 1 then s.(valid := false)
    else if Get(e, "table").Obj? then ScanTable(s, e["table"].fields)
    else if Get(e, "chain").Obj? then ScanChain(s, e["chain"].fields)
    else if Get(e, "rule").Obj? then ScanRule(t, s, e["rule"].fields)
    else s.(valid := false)
  }

  function ScanAll(t: AddressText, entries: seq<Entry>): Scan {
    if entries == [] then START
    else ScanEntry(t, ScanAll(t, entries[..|entries| - 1]), entries[|entries| - 1])
  }

  predicate Proven(s: Scan) {
    && s.tables == 1 && s.owners == 1 && s.owner != "" && !s.ownerHasRules
    && (s.hasComment ==> s.comment == OWNER_TEXT + s.owner)
  }

  /** There is no ownership by comment alone. */
  function Conclusion(s: Scan): Table {
    Table(if Proven(s) then s.owner else "", s.atoms, s.valid && s.chains == 1 && Proven(s))
  }

  /** The listing of the table, absent when the inventory does not name it. */
  function Observation(t: AddressText, listing: Option<seq<Entry>>): Option<Table> {
    if listing.None? then None else Some(Conclusion(ScanAll(t, listing.value)))
  }

  /** The inventory names the table when one of its entries does. */
  predicate Names(e: Entry) {
    var table := Fields(Get(e, "table"));
    Get(table, "family") == Str("inet") && Get(table, "name") == Str(TABLE)
  }

  /** Both loops over nft's output: the inventory of tables, then the table itself. */
  method ObserveFirewall(t: AddressText, inventory: seq<Entry>, entries: seq<Entry>) returns (seen: Option<Table>)
    ensures seen == Observation(t, if exists e :: e in inventory && Names(e) then Some(entries) else None)
  {
    var present := false;
    for i := 0 to |inventory|
      invariant present <==> exists e :: e in inventory[..i] && Names(e)
    {
      assert inventory[..i + 1] == inventory[..i] + [inventory[i]];
      if Names(inventory[i]) { present := true; }
    }
    assert inventory[..|inventory|] == inventory;
    if !present { return None; }
    var scan := START;
    for i := 0 to |entries|
      invariant scan == ScanAll(t, entries[..i])
    {
      assert entries[..i + 1][..i] == entries[..i];
      scan := ScanEntry(t, scan, entries[i]);
    }
    assert entries[..|entries|] == entries;
    seen := Some(Conclusion(scan));
  }

  // ----- What a listed table does to packets -----

  function ChainOf(e: Entry): map<string, Node> {
    if "metainfo" in e then map[] else Fields(Get(e, "chain"))
  }

  function RuleOf(e: Entry): map<string, Node> {
    if "metainfo" in e then map[] else Fields(Get(e, "rule"))
  }

  /** Only a chain with a hook sees packets. */
  predicate IsBase(e: Entry) {
    "hook" in ChainOf(e)
  }

  function Expressions(m: map<string, Node>): seq<Node> {
    var expr := Get(m, "expr");
    if expr.Arr? then expr.items else []
  }

  /** The rules of a chain, in the order of the listing. */
  function RulesOf(entries: seq<Entry>, chain: string): seq<seq<Node>> {
    if entries == [] then []
    else
      var front, last := RulesOf(entries[..|entries| - 1], chain), RuleOf(entries[|entries| - 1]);
      if Get(last, "chain") == Str(chain) then front + [Expressions(last)] else front
  }

  /** The first rule that lets the packet through to its verdict decides, else the policy. */
  ghost predicate ChainAccepts(t: AddressText, rules: seq<seq<Node>>, policy: Node, pkt: Packet) {
    if rules == [] then policy != Str("drop")
    else if EndsInVerdict(rules[0]) && SelectsAll(t, rules[0], |rules[0]|, pkt) then
      rules[0][|rules[0]| - 1] == VerdictNode(Accept)
    else ChainAccepts(t, rules[1..], policy, pkt)
  }

  /** A packet passes a table iff every base chain lets it pass. */
  ghost predicate TableAccepts(t: AddressText, entries: seq<Entry>, pkt: Packet) {
    forall e | e in entries && IsBase(e) ::
      ChainAccepts(t, RulesOf(entries, Text(Get(ChainOf(e), "name"))), Get(ChainOf(e), "policy"), pkt)
  }

  ghost predicate KernelAccepts(t: AddressText, listing: Option<seq<Entry>>, pkt: Packet) {
    listing.Some? ==> TableAccepts(t, listing.value, pkt)
  }

  // ----- Soundness -----

  /** What a scan that has found nothing wrong knows about the entries it has passed. */
  ghost predicate Known(t: AddressText, entries: seq<Entry>, s: Scan) {
    && ReadsAs(t, RulesOf(entries, "input"), s.atoms)
    && (forall e | e in entries && IsBase(e) :: InputChain(ChainOf(e)))
    && (s.chains > 0 ==> exists e :: e in entries && IsBase(e))
  }

  lemma RuleIsKnown(t: AddressText, front: seq<Entry>, s: Scan, e: Entry)
    requires Known(t, front, s) && "metainfo" !in e && |e| == 1 && Get(e, "rule").Obj?
    requires !Get(e, "table").Obj? && !Get(e, "chain").Obj? && ScanRule(t, s, e["rule"].fields).valid
    ensures Known(t, front + [e], ScanRule(t, s, e["rule"].fields))
  {
    assert (front + [e])[..|front|] == front;
    assert !IsBase(e);
    assert RulesOf(front + [e], "input") == RulesOf(front, "input") + [Expressions(e["rule"].fields)];
  }

  lemma OtherIsKnown(t: AddressText, front: seq<Entry>, s: Scan, e: Entry, s2: Scan)
    requires Known(t, front, s) && s2.atoms == s.atoms && "chain" !in RuleOf(e)
    requires IsBase(e) ==> InputChain(ChainOf(e))
    requires s2.chains == s.chains || IsBase(e)
    ensures Known(t, front + [e], s2)
  {
    assert (front + [e])[..|front|] == front;
    assert RulesOf(front + [e], "input") == RulesOf(front, "input");
    if x :| x in front && IsBase(x) {
      assert x in front + [e];
    }
    assert e in front + [e];
  }

  lemma ChainIsKnown(t: AddressText, front: seq<Entry>, s: Scan, e: Entry)
    requires Known(t, front, s) && "metainfo" !in e && "rule" !in e && Get(e, "chain").Obj?
    requires ScanChain(s, e["chain"].fields).valid
    ensures Known(t, front + [e], ScanChain(s, e["chain"].fields))
  {
    OtherIsKnown(t, front, s, e, ScanChain(s, e["chain"].fields));
  }

  lemma EntryIsKnown(t: AddressText, front: seq<Entry>, s: Scan, e: Entry)
    requires Known(t, front, s) && ScanEntry(t, s, e).valid
    ensures Known(t, front + [e], ScanEntry(t, s, e))
  {
    if "metainfo" in e {
      OtherIsKnown(t, front, s, e, s);
    } else if Get(e, "table").Obj? {
      OneKey(e, "table");
      OtherIsKnown(t, front, s, e, ScanEntry(t, s, e));
    } else if Get(e, "chain").Obj? {
      OneKey(e, "chain");
      ChainIsKnown(t, front, s, e);
    } else {
      RuleIsKnown(t, front, s, e);
    }
  }

  lemma {:induction false} ScanIsKnown(t: AddressText, entries: seq<Entry>)
    requires ScanAll(t, entries).valid
    ensures Known(t, entries, ScanAll(t, entries))
  {
    if entries != [] {
      var front, last := entries[..|entries| - 1], entries[|entries| - 1];
      assert entries == front + [last];
      EntryKeepsFault(t, ScanAll(t, front), last);
      ScanIsKnown(t, front);
      EntryIsKnown(t, front, ScanAll(t, front), last);
    }
  }

  lemma EntryKeepsFault(t: AddressText, s: Scan, e: Entry)
    ensures ScanEntry(t, s, e).valid ==> s.valid
  {}

  lemma {:induction false} AcceptingChain(t: AddressText, rules: seq<seq<Node>>, pkt: Packet)
    requires forall r | r in rules :: EndsInVerdict(r)
    ensures ChainAccepts(t, rules, Str("accept"), pkt) <==> Judge(t, rules, pkt) == Accept
  {
    if rules != [] {
      assert EndsInVerdict(rules[0]);
      VerdictsDiffer();
      AcceptingChain(t, rules[1..], pkt);
    }
  }

  /** A table that the agent takes for its policy does to every packet what the compiled
      policy says, whatever else nft has printed about it. */
  lemma ObservationIsSound(t: AddressText, listing: Option<seq<Entry>>, s: State, pkt: Packet)
    requires Lawful(t) && Matches(Observation(t, listing), Some(s))
    ensures KernelAccepts(t, listing, pkt) <==> Evaluate(Atoms(s.rules), pkt) == Accept
  {
    if s.rules != [] {
      var entries := listing.value;
      ScanIsKnown(t, entries);
      var rules := RulesOf(entries, "input");
      ListingMeaning(t, rules, Atoms(s.rules), pkt);
      AcceptingChain(t, rules, pkt);
      var base :| base in entries && IsBase(base);
      assert InputChain(ChainOf(base));
    }
  }

  /** From the request as it was written to the kernel's verdict: once the live table has
      been verified against the policy, a packet passes iff no rule covers its protocol and
      port or some entry of the rule, as written, covers its source. */
  lemma VerifiedTableMeansRequest(le: (Prefix, Prefix) -> bool, raw: RawRequest, t: AddressText,
                                  listing: Option<seq<Entry>>, s: State, pkt: Packet)
    requires TotalPreorder(le) && Acceptable(raw) && Lawful(t) && s.rules == Canonical(le, raw).rules
    requires Matches(Observation(t, listing), Some(s))
    ensures KernelAccepts(t, listing, pkt) <==> Permits(raw.rules.value, pkt)
  {
    ObservationIsSound(t, listing, s, pkt);
    CompiledMeaning(le, raw, pkt);
  }

  /** At every quiet point of every run - after failed applies, rollbacks, restores, crashes
      and power losses in any mix - while listeners are up or allowed, a packet passes the live
      table iff one request, as it was written, lets it pass: one submitted earlier in the run, or
      the policy that the agent found at its start. Without any, every packet passes. */
  lemma ListenersMeetThePolicy(ws: seq<World>, es: seq<Event>, i: nat, le: (Prefix, Prefix) -> bool,
                               raws: seq<RawRequest>, t: AddressText, listing: Option<seq<Entry>>)
      returns (raw: RawRequest)
    requires Run(ws, es) && i < |ws| && (ws[i].ready || ws[i].core)
    requires TotalPreorder(le) && Submitted(le, raws, es) && AllReadable(le, ws[0].dev)
    requires Lawful(t) && ws[i].dev.table == Observation(t, listing)
    ensures ws[i].dev.pending.None?
    ensures ws[i].dev.committed.None? ==> forall pkt :: KernelAccepts(t, listing, pkt)
    ensures ws[i].dev.committed.Some? ==>
      && Acceptable(raw) && Canonical(le, raw) == PolicyOf(ws[i].dev.committed.value)
      && (raw in raws[..i] || (ws[i].dev.committed in Contents(ws[0].dev)
                               && raw == Resubmit(PolicyOf(ws[i].dev.committed.value))))
      && forall pkt :: KernelAccepts(t, listing, pkt) <==> Permits(raw.rules.value, pkt)
  {
    raw := RawRequest(0, None);
    RunsFailClosed(ws, es, i);
    if ws[i].dev.committed.Some? {
      var s := ws[i].dev.committed.value;
      raw := CommittedRequest(ws, es, i, le, raws, s);
      forall pkt ensures KernelAccepts(t, listing, pkt) <==> Permits(raw.rules.value, pkt) {
        VerifiedTableMeansRequest(le, raw, t, listing, s, pkt);
      }
    }
  }

  /** The request behind a stored policy. */
  lemma CommittedRequest(ws: seq<World>, es: seq<Event>, i: nat, le: (Prefix, Prefix) -> bool,
                         raws: seq<RawRequest>, s: State) returns (raw: RawRequest)
    requires Run(ws, es) && i < |ws| && Some(s) in Contents(ws[i].dev)
    requires Submitted(le, raws, es) && AllReadable(le, ws[0].dev)
    ensures Acceptable(raw) && Canonical(le, raw) == PolicyOf(s)
    ensures raw in raws[..i] || (Some(s) in Contents(ws[0].dev) && raw == Resubmit(PolicyOf(s)))
  {
    StoredPoliciesWereRequested(ws, es, i, s);
    if Some(s) in Contents(ws[0].dev) {
      raw := Resubmit(PolicyOf(s));
    } else {
      var j :| 0 <= j < i && NextOf(es[j]) == Some(s);
      raw := raws[j];
      assert Persists(le, raws[j], s);
      assert raws[..i][j] == raws[j];
    }
  }

  // ----- Ownership -----

  lemma {:induction false} OwnerWasListed(t: AddressText, entries: seq<Entry>)
    requires ScanAll(t, entries).owner != ""
    ensures exists e :: e in entries && Get(ChainOf(e), "name") == Str(OWNER_CHAIN + ScanAll(t, entries).owner)
  {
    var front, last := entries[..|entries| - 1], entries[|entries| - 1];
    var before, after := ScanAll(t, front), ScanAll(t, entries);
    if after.owner == before.owner {
      OwnerWasListed(t, front);
      var e :| e in front && Get(ChainOf(e), "name") == Str(OWNER_CHAIN + before.owner);
      assert e in entries;
    } else {
      var name := Get(ChainOf(last), "name");
      assert HasPrefix(Text(name), OWNER_CHAIN);
      assert Text(name) == OWNER_CHAIN + Text(name)[|OWNER_CHAIN|..];
      assert last in entries;
    }
  }

  /** A table of the same name that carries no owner chain with the agent's own token is
      never taken for its own, whatever its comment says. */
  lemma ForeignTableIsNotOwned(t: AddressText, entries: seq<Entry>, s: State)
    requires s.owner != ""
    requires forall e | e in entries :: Get(ChainOf(e), "name") != Str(OWNER_CHAIN + s.owner)
    ensures !Owned(Observation(t, Some(entries)), Some(s))
  {
    if ScanAll(t, entries).owner == s.owner {
      OwnerWasListed(t, entries);
    }
  }

  // ----- Recognition -----

  /** The lines of a listing of a table made by the agent: handles, the comment and the form
      of each rule are up to nft. */
  datatype Printed =
    | Info(body: Node)
    | TableLine(handle: Option<Node>, comment: bool)
    | OwnerLine(handle: Option<Node>)
    | InputLine(handle: Option<Node>)
    | RuleLine(handle: Option<Node>, atom: Atom, forms: seq<Form>)

  function Handle(h: Option<Node>): map<string, Node> {
    if h.Some? then map["handle" := h.value] else map[]
  }

  function TableFields(token: string, h: Option<Node>, comment: bool): map<string, Node> {
    map["family" := Str("inet"), "name" := Str(TABLE)] + Handle(h)
    + if comment then map["comment" := Str(OWNER_TEXT + token)] else map[]
  }

  function OwnerFields(token: string, h: Option<Node>): map<string, Node> {
    map["family" := Str("inet"), "table" := Str(TABLE), "name" := Str(OWNER_CHAIN + token)] + Handle(h)
  }

  function InputFields(h: Option<Node>): map<string, Node> {
    map["family" := Str("inet"), "table" := Str(TABLE), "name" := Str("input"), "type" := Str("filter"),
        "hook" := Str("input"), "prio" := Num(-10.0), "policy" := Str("accept")] + Handle(h)
  }

  function RuleFields(h: Option<Node>, expr: seq<Node>): map<string, Node> {
    map["family" := Str("inet"), "table" := Str(TABLE), "chain" := Str("input"), "expr" := Arr(expr)] + Handle(h)
  }

  ghost predicate Faithful(p: Printed) {
    p.RuleLine? ==> Generated(p.atom) && Printable(p.atom, p.forms)
  }

  ghost function EntryOf(t: AddressText, token: string, p: Printed): Entry
    requires Faithful(p)
  {
    match p
    case Info(body) => map["metainfo" := body]
    case TableLine(h, comment) => map["table" := Obj(TableFields(token, h, comment))]
    case OwnerLine(h) => map["chain" := Obj(OwnerFields(token, h))]
    case InputLine(h) => map["chain" := Obj(InputFields(h))]
    case RuleLine(h, atom, forms) => map["rule" := Obj(RuleFields(h, PrintAll(t, atom, forms)))]
  }

  ghost function EntriesOf(t: AddressText, token: string, ps: seq<Printed>): (r: seq<Entry>)
    requires forall p | p in ps :: Faithful(p)
    ensures |r| == |ps| && forall i | 0 <= i < |ps| :: r[i] == EntryOf(t, token, ps[i])
  {
    seq(|ps|, i requires 0 <= i < |ps| => EntryOf(t, token, ps[i]))
  }

  function AtomsOf(ps: seq<Printed>): seq<Atom> {
    if ps == [] then []
    else AtomsOf(ps[..|ps| - 1]) + (if ps[|ps| - 1].RuleLine? then [ps[|ps| - 1].atom] else [])
  }

  datatype Tally = Tally(tables: nat, owners: nat, inputs: nat)

  function TallyOf(ps: seq<Printed>): Tally {
    if ps == [] then Tally(0, 0, 0)
    else
      var c := TallyOf(ps[..|ps| - 1]);
      match ps[|ps| - 1]
      case TableLine(_, _) => c.(tables := c.tables + 1)
      case OwnerLine(_) => c.(owners := c.owners + 1)
      case InputLine(_) => c.(inputs := c.inputs + 1)
      case _ => c
  }

  /** The scan of a listing of the agent's own table finds nothing wrong. */
  ghost predicate OnTrack(token: string, ps: seq<Printed>, s: Scan) {
    && s.valid && !s.ownerHasRules && s.atoms == AtomsOf(ps)
    && TallyOf(ps) == Tally(s.tables, s.owners, s.chains)
    && (s.owners > 0 ==> s.owner == token)
    && (s.hasComment ==> s.comment == OWNER_TEXT + token)
  }

  lemma OneEntry(k: string, v: Node)
    ensures var e: Entry := map[k := v]; |e| == 1 && Get(e, k) == v
  {
    var e: Entry := map[k := v];
    assert e.Keys == {k};
    assert |e.Keys| == 1;
  }

  lemma OwnerLineScans(token: string, s: Scan, h: Option<Node>)
    requires Token(token)
    ensures ScanChain(s, OwnerFields(token, h)) == s.(owners := s.owners + 1, owner := token)
  {
    var m := OwnerFields(token, h);
    assert (OWNER_CHAIN + token)[..|OWNER_CHAIN|] == OWNER_CHAIN;
    assert (OWNER_CHAIN + token)[|OWNER_CHAIN|..] == token;
    assert m.Keys <= {"family", "table", "name", "handle"};
  }

  lemma InputLineScans(s: Scan, h: Option<Node>)
    ensures ScanChain(s, InputFields(h)) == s.(chains := s.chains + 1)
  {
    assert "input"[0] != OWNER_CHAIN[0];
    assert InputFields(h).Keys <= {"family", "table", "name", "handle", "type", "hook", "prio", "policy"};
  }

  lemma RuleLineScans(t: AddressText, s: Scan, h: Option<Node>, atom: Atom, forms: seq<Form>)
    requires Lawful(t) && Generated(atom) && Printable(atom, forms)
    ensures ScanRule(t, s, RuleFields(h, PrintAll(t, atom, forms))) == s.(atoms := s.atoms + [atom])
  {
    ReaderIsTolerant(t, atom, forms);
    var m := RuleFields(h, PrintAll(t, atom, forms));
    assert "input"[0] != OWNER_CHAIN[0];
    assert m.Keys <= {"family", "table", "chain", "handle", "expr"};
  }

  lemma TableLineScans(token: string, s: Scan, h: Option<Node>, comment: bool)
    ensures ScanTable(s, TableFields(token, h, comment)) ==
      s.(tables := s.tables + 1, hasComment := comment, comment := if comment then OWNER_TEXT + token else "")
  {
    assert TableFields(token, h, comment).Keys <= {"family", "name", "handle", "comment"};
  }

  /** What each line of such a listing does to the scan. */
  function Scanned(token: string, s: Scan, p: Printed): Scan {
    match p
    case Info(_) => s
    case TableLine(_, comment) =>
      s.(tables := s.tables + 1, hasComment := comment, comment := if comment then OWNER_TEXT + token else "")
    case OwnerLine(_) => s.(owners := s.owners + 1, owner := token)
    case InputLine(_) => s.(chains := s.chains + 1)
    case RuleLine(_, atom, _) => s.(atoms := s.atoms + [atom])
  }

  lemma TableEntryScans(t: AddressText, s: Scan, m: map<string, Node>, s2: Scan)
    requires ScanTable(s, m) == s2
    ensures ScanEntry(t, s, map["table" := Obj(m)]) == s2
  {
    OneEntry("table", Obj(m));
  }

  lemma ChainEntryScans(t: AddressText, s: Scan, m: map<string, Node>, s2: Scan)
    requires ScanChain(s, m) == s2
    ensures ScanEntry(t, s, map["chain" := Obj(m)]) == s2
  {
    OneEntry("chain", Obj(m));
  }

  lemma RuleEntryScans(t: AddressText, s: Scan, m: map<string, Node>, s2: Scan)
    requires ScanRule(t, s, m) == s2
    ensures ScanEntry(t, s, map["rule" := Obj(m)]) == s2
  {
    OneEntry("rule", Obj(m));
  }

  lemma LineScans(t: AddressText, token: string, s: Scan, p: Printed)
    requires Lawful(t) && Token(token) && Faithful(p)
    ensures ScanEntry(t, s, EntryOf(t, token, p)) == Scanned(token, s, p)
  {
    var s2 := Scanned(token, s, p);
    match p
    case Info(_) =>
    case TableLine(h, comment) =>
      TableLineScans(token, s, h, comment);
      TableEntryScans(t, s, TableFields(token, h, comment), s2);
    case OwnerLine(h) =>
      OwnerLineScans(token, s, h);
      ChainEntryScans(t, s, OwnerFields(token, h), s2);
    case InputLine(h) =>
      InputLineScans(s, h);
      ChainEntryScans(t, s, InputFields(h), s2);
    case RuleLine(h, atom, forms) =>
      RuleLineScans(t, s, h, atom, forms);
      RuleEntryScans(t, s, RuleFields(h, PrintAll(t, atom, forms)), s2);
  }

  lemma LineKeepsTrack(token: string, front: seq<Printed>, p: Printed, s: Scan)
    requires OnTrack(token, front, s)
    ensures OnTrack(token, front + [p], Scanned(token, s, p))
  {
    assert (front + [p])[..|front|] == front;
  }

  lemma {:induction false} ListingKeepsTrack(t: AddressText, token: string, ps: seq<Printed>)
    requires Lawful(t) && Token(token) && forall p | p in ps :: Faithful(p)
    ensures OnTrack(token, ps, ScanAll(t, EntriesOf(t, token, ps)))
  {
    if ps != [] {
      var front, last := ps[..|ps| - 1], ps[|ps| - 1];
      assert ps == front + [last];
      ListingKeepsTrack(t, token, front);
      var entries := EntriesOf(t, token, ps);
      assert entries[..|ps| - 1] == EntriesOf(t, token, front);
      LineScans(t, token, ScanAll(t, EntriesOf(t, token, front)), last);
      LineKeepsTrack(token, front, last, ScanAll(t, EntriesOf(t, token, front)));
    }
  }

  /** Every listing of the table compiled for a policy - in any order of its lines, with any
      handles, with or without the comment, each rule in any form nft may choose - is seen
      as exactly that table, and so matches the policy. */
  lemma OwnTableIsRecognized(t: AddressText, s: State, ps: seq<Printed>)
    requires Lawful(t) && Token(s.owner) && s.rules != [] && forall p | p in ps :: Faithful(p)
    requires TallyOf(ps) == Tally(1, 1, 1) && AtomsOf(ps) == Atoms(s.rules)
    ensures Observation(t, Some(EntriesOf(t, s.owner, ps))) == Compile(Some(s))
    ensures Matches(Observation(t, Some(EntriesOf(t, s.owner, ps))), Some(s))
  {
    ListingKeepsTrack(t, s.owner, ps);
  }
}
