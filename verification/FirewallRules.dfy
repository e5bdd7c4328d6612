/** Allowlist requests: canonical form, compilation to ordered accept/drop atoms,
    and what both mean for a packet. Addresses are bit strings; their text form is
    an ideal function, so the order in which printed prefixes sort is a parameter. */
module FirewallRules {
  import opened Common

  // ----- Addresses and prefixes -----

  datatype Family = V4 | V6

  /** Most significant bit first. */
  datatype Addr = Addr(family: Family, bits: seq<bool>)

  datatype Prefix = Prefix(addr: Addr, len: nat)

  /** The outcome of reading one allowlist entry as an address or as a network. */
  datatype Source =
    | Unreadable
    | Address(a: Addr, zoned: bool)
    | Network(net: Prefix)

  function Width(f: Family): nat {
    if f.V4? then 32 else 128
  }

  predicate ValidAddr(a: Addr) {
    |a.bits| == Width(a.family)
  }

  predicate ValidPrefix(p: Prefix) {
    ValidAddr(p.addr) && p.len <= Width(p.addr.family)
  }

  /** Section 3.1 of RFC 4632 and section 2.3 of RFC 4291: the leading bits agree. */
  predicate Contains(p: Prefix, a: Addr) {
    && ValidPrefix(p) && ValidAddr(a)
    && a.family == p.addr.family
    && a.bits[..p.len] == p.addr.bits[..p.len]
  }

  /** What an entry means as written, before any masking. */
  predicate Covers(s: Source, a: Addr) {
    match s
    case Unreadable => false
    case Address(x, _) => a == x
    case Network(p) => Contains(p, a)
  }

  function Repeat(b: bool, n: nat): (r: seq<bool>)
    ensures |r| == n && forall i | 0 <= i < n :: r[i] == b
  {
    seq(n, _ => b)
  }

  /** IPv4 addresses mapped into IPv6: ::ffff:0:0/96. */
  predicate Is4In6(a: Addr) {
    a.family.V6? && Repeat(false, 80) + Repeat(true, 16) <= a.bits
  }

  predicate GlobalUnicast(a: Addr) {
    if a.family.V4? then
      && a.bits != Repeat(false, 32) && a.bits != Repeat(true, 32)
      && !([false] + Repeat(true, 7) <= a.bits)                                   // loopback
      && !([true, true, true, false] <= a.bits)                                   // multicast
      && !([true, false, true, false, true, false, false, true] + Repeat(true, 7) + [false] <= a.bits)  // link local
    else
      && a.bits != Repeat(false, 128) && a.bits != Repeat(false, 127) + [true]
      && !(Repeat(true, 8) <= a.bits)
      && !(Repeat(true, 7) + [false, true, false] <= a.bits)
  }

  function Bit(b: bool): nat {
    if b then 1 else 0
  }

  /** The octet number `i` of an address. */
  function Octet(a: Addr, i: nat): nat
    requires 8 * i + 8 <= |a.bits|
  {
    ByteOf(a.bits[8 * i..8 * i + 8])
  }

  function ByteOf(b: seq<bool>): nat
    requires |b| == 8
  {
    128 * Bit(b[0]) + 64 * Bit(b[1]) + 32 * Bit(b[2]) + 16 * Bit(b[3])
    + 8 * Bit(b[4]) + 4 * Bit(b[5]) + 2 * Bit(b[6]) + Bit(b[7])
  }

  /** The IPv4 addresses that may stand in a list: neither 0.0.0.0 nor 255.255.255.255, and outside of
      127.0.0.0/8, 224.0.0.0/4 and 169.254.0.0/16. */
  lemma GlobalUnicastV4(a: Addr)
    requires a.family.V4? && ValidAddr(a)
    ensures GlobalUnicast(a) <==>
      && !AllOctets(a, 4, 0) && !AllOctets(a, 4, 255)
      && Octet(a, 0) != 127 && !(224 <= Octet(a, 0) < 240) && !(Octet(a, 0) == 169 && Octet(a, 1) == 254)
  {
    AllBits(a, 4);
    LoopbackV4(a);
    MulticastV4(a);
    LinkLocalV4(a);
  }

  /** The IPv6 addresses: neither :: nor ::1, and outside of ff00::/8 and fe80::/10. */
  lemma GlobalUnicastV6(a: Addr)
    requires a.family.V6? && ValidAddr(a)
    ensures GlobalUnicast(a) <==>
      && !AllOctets(a, 16, 0) && !(AllOctets(a, 15, 0) && Octet(a, 15) == 1)
      && Octet(a, 0) != 255 && !(Octet(a, 0) == 254 && 128 <= Octet(a, 1) < 192)
  {
    AllBits(a, 16);
    LoopbackV6(a);
    MulticastV6(a);
    LinkLocalV6(a);
  }

  ghost predicate AllOctets(a: Addr, n: nat, v: nat)
    requires 8 * n <= |a.bits|
  {
    forall i | 0 <= i < n :: Octet(a, i) == v
  }

  lemma PrefixIs(p: seq<bool>, bits: seq<bool>)
    ensures p <= bits <==> |p| <= |bits| && forall i | 0 <= i < |p| :: p[i] == bits[i]
  {
  }

  lemma LoopbackV4(a: Addr)
    requires |a.bits| >= 8
    ensures [false] + Repeat(true, 7) <= a.bits <==> Octet(a, 0) == 127
  {
    var p := [false] + Repeat(true, 7);
    PrefixIs(p, a.bits);
    assert !p[0] && p[1] && p[2] && p[3] && p[4] && p[5] && p[6] && p[7];
  }

  lemma MulticastV4(a: Addr)
    requires |a.bits| >= 8
    ensures [true, true, true, false] <= a.bits <==> 224 <= Octet(a, 0) < 240
  {
    PrefixIs([true, true, true, false], a.bits);
  }

  lemma LinkLocalV4(a: Addr)
    requires |a.bits| >= 16
    ensures [true, false, true, false, true, false, false, true] + Repeat(true, 7) + [false] <= a.bits <==>
      Octet(a, 0) == 169 && Octet(a, 1) == 254
  {
    var first, second := [true, false, true, false, true, false, false, true], Repeat(true, 7) + [false];
    var p := first + Repeat(true, 7) + [false];
    assert p == first + second;
    assert a.bits[..16] == a.bits[..8] + a.bits[8..16];
    Octet169(a);
    Octet254(a);
    if p <= a.bits {
      assert a.bits[..8] == p[..8] == first && a.bits[8..16] == p[8..16] == second;
    }
  }

  lemma Octet169(a: Addr)
    requires |a.bits| >= 16
    ensures Octet(a, 0) == 169 <==> a.bits[..8] == [true, false, true, false, true, false, false, true]
  {
    var b, p := a.bits[..8], [true, false, true, false, true, false, false, true];
    assert a.bits[0..8] == b;
    assert b == p <==> forall i | 0 <= i < 8 :: b[i] == p[i];
  }

  lemma Octet254(a: Addr)
    requires |a.bits| >= 16
    ensures Octet(a, 1) == 254 <==> a.bits[8..16] == Repeat(true, 7) + [false]
  {
    var b, p := a.bits[8..16], Repeat(true, 7) + [false];
    assert b == p <==> forall i | 0 <= i < 8 :: b[i] == p[i];
    assert p[0] && p[1] && p[2] && p[3] && p[4] && p[5] && p[6] && !p[7];
  }

  lemma MulticastV6(a: Addr)
    requires |a.bits| >= 8
    ensures Repeat(true, 8) <= a.bits <==> Octet(a, 0) == 255
  {
    PrefixIs(Repeat(true, 8), a.bits);
    OctetEnds(a, 0);
  }

  lemma LinkLocalV6(a: Addr)
    requires |a.bits| >= 16
    ensures Repeat(true, 7) + [false, true, false] <= a.bits <==> Octet(a, 0) == 254 && 128 <= Octet(a, 1) < 192
  {
    var p := Repeat(true, 7) + [false, true, false];
    PrefixIs(p, a.bits);
    assert p[0] && p[1] && p[2] && p[3] && p[4] && p[5] && p[6] && !p[7] && p[8] && !p[9];
  }

  lemma AllBits(a: Addr, n: nat)
    requires |a.bits| == 8 * n
    ensures AllOctets(a, n, 0) <==> a.bits == Repeat(false, 8 * n)
    ensures AllOctets(a, n, 255) <==> a.bits == Repeat(true, 8 * n)
  {
    forall i | 0 <= i < n
      ensures Octet(a, i) == 0 <==> forall j | 8 * i <= j < 8 * i + 8 :: !a.bits[j]
      ensures Octet(a, i) == 255 <==> forall j | 8 * i <= j < 8 * i + 8 :: a.bits[j]
    {
      OctetEnds(a, i);
    }
    forall j | 0 <= j < 8 * n ensures 0 <= j / 8 < n && 8 * (j / 8) <= j < 8 * (j / 8) + 8 {}
    if AllOctets(a, n, 0) {
      forall j | 0 <= j < 8 * n ensures !a.bits[j] { assert Octet(a, j / 8) == 0; }
    }
    if AllOctets(a, n, 255) {
      forall j | 0 <= j < 8 * n ensures a.bits[j] { assert Octet(a, j / 8) == 255; }
    }
  }

  lemma LoopbackV6(a: Addr)
    requires |a.bits| == 128
    ensures AllOctets(a, 15, 0) && Octet(a, 15) == 1 <==> a.bits == Repeat(false, 127) + [true]
  {
    var front, last := a.bits[..120], a.bits[120..];
    FrontOctets(a);
    LastOctet(a);
    assert a.bits == front + last;
    assert Repeat(false, 127) + [true] == Repeat(false, 120) + (Repeat(false, 7) + [true]);
    if a.bits == Repeat(false, 127) + [true] {
      assert front == Repeat(false, 120) && last == Repeat(false, 7) + [true];
    }
  }

  lemma FrontOctets(a: Addr)
    requires |a.bits| == 128
    ensures AllOctets(a, 15, 0) <==> a.bits[..120] == Repeat(false, 120)
  {
    var front := a.(bits := a.bits[..120]);
    AllBits(front, 15);
    forall i | 0 <= i < 15 ensures Octet(front, i) == Octet(a, i) {
      assert front.bits[8 * i..8 * i + 8] == a.bits[8 * i..8 * i + 8];
    }
  }

  lemma LastOctet(a: Addr)
    requires |a.bits| == 128
    ensures Octet(a, 15) == 1 <==> a.bits[120..] == Repeat(false, 7) + [true]
  {
    var b, one := a.bits[120..], Repeat(false, 7) + [true];
    assert a.bits[120..128] == b;
    assert b == one <==> forall i | 0 <= i < 8 :: b[i] == one[i];
    assert !one[0] && !one[1] && !one[2] && !one[3] && !one[4] && !one[5] && !one[6] && one[7];
  }

  lemma OctetEnds(a: Addr, i: nat)
    requires 8 * i + 8 <= |a.bits|
    ensures Octet(a, i) == 0 <==> forall j | 8 * i <= j < 8 * i + 8 :: !a.bits[j]
    ensures Octet(a, i) == 255 <==> forall j | 8 * i <= j < 8 * i + 8 :: a.bits[j]
  {
    var b := a.bits[8 * i..8 * i + 8];
    EightBits(b);
    assert forall j | 8 * i <= j < 8 * i + 8 :: a.bits[j] == b[j - 8 * i];
    assert forall j | 0 <= j < 8 :: b[j] == a.bits[8 * i + j];
  }

  lemma EightBits(b: seq<bool>)
    requires |b| == 8
    ensures ByteOf(b) == 0 <==> forall j | 0 <= j < 8 :: !b[j]
    ensures ByteOf(b) == 255 <==> forall j | 0 <= j < 8 :: b[j]
  {
    NoBit(b);
    EveryBit(b);
  }

  lemma NoBit(b: seq<bool>)
    requires |b| == 8
    ensures ByteOf(b) == 0 <==> forall j | 0 <= j < 8 :: !b[j]
  {
    if ByteOf(b) == 0 {
      assert Bit(b[0]) == Bit(b[1]) == Bit(b[2]) == Bit(b[3]) == Bit(b[4]) == Bit(b[5]) == Bit(b[6]) == Bit(b[7]) == 0;
    }
  }

  lemma EveryBit(b: seq<bool>)
    requires |b| == 8
    ensures ByteOf(b) == 255 <==> forall j | 0 <= j < 8 :: b[j]
  {
    if ByteOf(b) == 255 {
      assert Bit(b[0]) == Bit(b[1]) == Bit(b[2]) == Bit(b[3]) == Bit(b[4]) == Bit(b[5]) == Bit(b[6]) == Bit(b[7]) == 1;
    }
  }

  function Masked(p: Prefix): (r: Prefix)
    requires ValidPrefix(p)
    ensures ValidPrefix(r)
  {
    p.(addr := p.addr.(bits := p.addr.bits[..p.len] + Repeat(false, |p.addr.bits| - p.len)))
  }

  function Finish(p: Prefix): Option<Prefix>
    requires ValidPrefix(p)
  {
    if p.len == 0 || Is4In6(p.addr) || !GlobalUnicast(p.addr) then None
    else if !GlobalUnicast(Masked(p).addr) then None
    else Some(Masked(p))
  }

  /** One allowlist entry in canonical form, or its rejection. */
  function CanonPrefix(s: Source): Option<Prefix> {
    match s
    case Unreadable => None
    case Address(a, zoned) =>
      if zoned || !ValidAddr(a) || Is4In6(a) then None else Finish(Prefix(a, Width(a.family)))
    case Network(p) => if !ValidPrefix(p) then None else Finish(p)
  }

  // ----- Masking changes neither meaning nor acceptance -----

  lemma MaskingFacts(p: Prefix, a: Addr)
    requires ValidPrefix(p)
    ensures Contains(Masked(p), a) <==> Contains(p, a)
    ensures Masked(Masked(p)) == Masked(p)
    ensures !Is4In6(p.addr) ==> !Is4In6(Masked(p).addr)
  {
    var m := Masked(p);
    assert m.addr.bits[..p.len] == p.addr.bits[..p.len];
    var mapped := Repeat(false, 80) + Repeat(true, 16);
    if mapped <= m.addr.bits {
      assert mapped[95] && m.addr.bits[95];
      assert m.addr.bits[..96] == p.addr.bits[..96];
    }
  }

  /** Canonicalizing an entry keeps exactly the addresses it was written for. */
  lemma CanonPrefixMeaning(s: Source, a: Addr)
    requires CanonPrefix(s).Some?
    ensures Contains(CanonPrefix(s).value, a) <==> Covers(s, a)
  {
    var p := if s.Address? then Prefix(s.a, Width(s.a.family)) else s.net;
    MaskingFacts(p, a);
    if s.Address? && a.family == s.a.family && ValidAddr(a) {
      assert a.bits[..p.len] == a.bits && s.a.bits[..p.len] == s.a.bits;
    }
  }

  lemma CanonPrefixIdempotent(s: Source)
    requires CanonPrefix(s).Some?
    ensures CanonPrefix(Network(CanonPrefix(s).value)) == CanonPrefix(s)
  {
    var p := if s.Address? then Prefix(s.a, Width(s.a.family)) else s.net;
    MaskingFacts(p, p.addr);
  }

  // ----- Requests -----

  datatype Proto = Tcp | Udp

  datatype RawRule = RawRule(id: string, name: string, protocol: string, port: int, sources: seq<Source>)

  /** `rules` is absent when the request omits the field. */
  datatype RawRequest = RawRequest(revision: nat, rules: Option<seq<RawRule>>)

  datatype Rule = Rule(id: string, name: string, protocol: Proto, port: nat, cidrs: seq<Prefix>)

  datatype Request = Request(revision: nat, rules: seq<Rule>)

  const MAX_REVISION: nat := 9007199254740991

  function ProtoOf(s: string): Option<Proto> {
    if s == "tcp" then Some(Tcp) else if s == "udp" then Some(Udp) else None
  }

  function ProtoText(p: Proto): string {
    if p.Tcp? then "tcp" else "udp"
  }

  predicate AlphaNumeric(c: char) {
    'A' <= c <= 'Z' || 'a' <= c <= 'z' || '0' <= c <= '9'
  }

  predicate SafeId(s: string) {
    1 <= |s| <= 64 && AlphaNumeric(s[0]) && forall c | c in s :: AlphaNumeric(c) || c == '_' || c == '-'
  }

  predicate IsSpace(c: char) {
    || '\t' <= c <= '\r' || c == ' ' || c == '\U{85}' || c == '\U{A0}' || c == '\U{1680}'
    || '\U{2000}' <= c <= '\U{200A}' || c == '\U{2028}' || c == '\U{2029}' || c == '\U{202F}'
    || c == '\U{205F}' || c == '\U{3000}'
  }

  function TrimLeft(s: string): string {
    if s != [] && IsSpace(s[0]) then TrimLeft(s[1..]) else s
  }

  function TrimRight(s: string): string {
    if s != [] && IsSpace(s[|s| - 1]) then TrimRight(s[..|s| - 1]) else s
  }

  function TrimSpace(s: string): string {
    TrimRight(TrimLeft(s))
  }

  lemma {:induction false} TrimRightKeepsHead(s: string)
    ensures var t := TrimRight(s); t <= s && (t != [] ==> t[0] == s[0] && !IsSpace(t[|t| - 1]))
  {
    if s != [] && IsSpace(s[|s| - 1]) {
      TrimRightKeepsHead(s[..|s| - 1]);
    }
  }

  lemma {:induction false} TrimLeftStopsAtText(s: string)
    ensures TrimLeft(s) != [] ==> !IsSpace(TrimLeft(s)[0])
  {
    if s != [] && IsSpace(s[0]) {
      TrimLeftStopsAtText(s[1..]);
    }
  }

  lemma {:induction false} TrimLeftDrops(s: string) returns (i: nat)
    ensures i <= |s| && TrimLeft(s) == s[i..] && forall c | c in s[..i] :: IsSpace(c)
  {
    i := 0;
    if s != [] && IsSpace(s[0]) {
      i := TrimLeftDrops(s[1..]);
      assert s[..i + 1] == [s[0]] + s[1..][..i];
      i := i + 1;
    }
  }

  lemma {:induction false} TrimRightDrops(s: string) returns (j: nat)
    ensures j <= |s| && TrimRight(s) == s[..j] && forall c | c in s[j..] :: IsSpace(c)
  {
    j := |s|;
    if s != [] && IsSpace(s[|s| - 1]) {
      j := TrimRightDrops(s[..|s| - 1]);
      assert s[j..] == s[..|s| - 1][j..] + [s[|s| - 1]];
    }
  }

  /** Trimming drops exactly the spaces around a text. */
  lemma TrimDropsSpaces(s: string) returns (i: nat, j: nat)
    ensures i <= j <= |s| && TrimSpace(s) == s[i..j]
    ensures (forall c | c in s[..i] + s[j..] :: IsSpace(c)) && (i < j ==> !IsSpace(s[i]) && !IsSpace(s[j - 1]))
  {
    i := TrimLeftDrops(s);
    var n := TrimRightDrops(s[i..]);
    j := i + n;
    assert s[i..][n..] == s[j..] && s[i..][..n] == s[i..j];
    TrimLeftStopsAtText(s);
    TrimRightKeepsHead(TrimLeft(s));
  }

  lemma TrimIdempotent(s: string)
    ensures TrimSpace(TrimSpace(s)) == TrimSpace(s)
  {
    TrimLeftStopsAtText(s);
    TrimRightKeepsHead(TrimLeft(s));
  }

  predicate RuleOk(r: RawRule) {
    && SafeId(r.id)
    && |TrimSpace(r.name)| <= 100
    && ProtoOf(r.protocol).Some?
    && 1 <= r.port <= 65535
    && 1 <= |r.sources| <= 128
    && forall s | s in r.sources :: CanonPrefix(s).Some?
  }

  ghost predicate NoClash(rules: seq<RawRule>, i: nat, j: nat)
    requires i < |rules| && j < |rules|
  {
    rules[i].id != rules[j].id && (rules[i].protocol != rules[j].protocol || rules[i].port != rules[j].port)
  }

  /** Exactly the requests the decoder admits. */
  ghost predicate Acceptable(raw: RawRequest) {
    && 0 < raw.revision <= MAX_REVISION
    && raw.rules.Some?
    && |raw.rules.value| <= 64
    && (forall r | r in raw.rules.value :: RuleOk(r))
    && (forall i, j :: 0 <= i < j < |raw.rules.value| ==> NoClash(raw.rules.value, i, j))
  }

  function CanonEach(sources: seq<Source>): (r: seq<Prefix>)
    requires forall s | s in sources :: CanonPrefix(s).Some?
    ensures |r| == |sources| && forall i | 0 <= i < |sources| :: r[i] == CanonPrefix(sources[i]).value
  {
    seq(|sources|, i requires 0 <= i < |sources| => CanonPrefix(sources[i]).value)
  }

  function Dedup(ps: seq<Prefix>): seq<Prefix> {
    if ps == [] then []
    else
      var front := Dedup(ps[..|ps| - 1]);
      if ps[|ps| - 1] in front then front else front + [ps[|ps| - 1]]
  }

  function CanonCidrs(le: (Prefix, Prefix) -> bool, sources: seq<Source>): seq<Prefix>
    requires forall s | s in sources :: CanonPrefix(s).Some?
  {
    SortBy(le, Dedup(CanonEach(sources)))
  }

  function CanonRule(le: (Prefix, Prefix) -> bool, r: RawRule): Rule
    requires RuleOk(r)
  {
    Rule(r.id, TrimSpace(r.name), ProtoOf(r.protocol).value, r.port, CanonCidrs(le, r.sources))
  }

  function CanonRules(le: (Prefix, Prefix) -> bool, rules: seq<RawRule>): (r: seq<Rule>)
    requires forall r | r in rules :: RuleOk(r)
    ensures |r| == |rules| && forall i | 0 <= i < |rules| :: r[i] == CanonRule(le, rules[i])
  {
    seq(|rules|, i requires 0 <= i < |rules| => CanonRule(le, rules[i]))
  }

  predicate RuleLe(a: Rule, b: Rule) {
    if a.protocol != b.protocol then a.protocol.Tcp? else a.port <= b.port
  }

  ghost function Canonical(le: (Prefix, Prefix) -> bool, raw: RawRequest): Request
    requires Acceptable(raw)
  {
    Request(raw.revision, SortBy(RuleLe, CanonRules(le, raw.rules.value)))
  }

  /** The decoder. The source makes the three passes below in one loop; the errors
      it reports are not told apart here. */
  method DecodeFirewall(le: (Prefix, Prefix) -> bool, raw: RawRequest) returns (r: Result<Request>)
    ensures r.Ok? <==> Acceptable(raw)
    ensures r.Ok? ==> r.value == Canonical(le, raw)
  {
    if raw.revision == 0 || raw.revision > MAX_REVISION || raw.rules.None? || |raw.rules.value| > 64 {
      return Err;
    }
    var separate := FindNoClash(raw.rules.value);
    if !separate { return Err; }
    var decoded := DecodeRules(le, raw.rules.value);
    if decoded.Err? { return Err; }
    r := Ok(Request(raw.revision, SortBy(RuleLe, decoded.value)));
  }

  /** The tables of identifiers and of protocol/port pairs seen so far. */
  method FindNoClash(rules: seq<RawRule>) returns (ok: bool)
    ensures ok <==> forall i, j :: 0 <= i < j < |rules| ==> NoClash(rules, i, j)
  {
    var ids: set<string>, ports: set<(string, int)> := {}, {};
    for i := 0 to |rules|
      invariant forall a, b :: 0 <= a < b < i ==> NoClash(rules, a, b)
      invariant ids == set k | 0 <= k < i :: rules[k].id
      invariant ports == set k | 0 <= k < i :: (rules[k].protocol, rules[k].port)
    {
      if rules[i].id in ids {
        ghost var k :| 0 <= k < i && rules[k].id == rules[i].id;
        assert !NoClash(rules, k, i);
        return false;
      }
      ids := ids + {rules[i].id};
      var key := (rules[i].protocol, rules[i].port);
      if key in ports {
        ghost var k :| 0 <= k < i && (rules[k].protocol, rules[k].port) == key;
        assert !NoClash(rules, k, i);
        return false;
      }
      ports := ports + {key};
    }
    ok := true;
  }

  /** `out` holds the canonical forms of the first rules. */
  ghost predicate Decoded(le: (Prefix, Prefix) -> bool, rules: seq<RawRule>, out: seq<Rule>) {
    |out| <= |rules| && forall k {:trigger DecodedAt(le, rules, out, k)} :: DecodedAt(le, rules, out, k)
  }

  ghost predicate DecodedAt(le: (Prefix, Prefix) -> bool, rules: seq<RawRule>, out: seq<Rule>, k: int) {
    0 <= k < |out| <= |rules| ==> RuleOk(rules[k]) && out[k] == CanonRule(le, rules[k])
  }

  lemma DecodedOneMore(le: (Prefix, Prefix) -> bool, rules: seq<RawRule>, out: seq<Rule>)
    requires Decoded(le, rules, out) && |out| < |rules| && RuleOk(rules[|out|])
    ensures Decoded(le, rules, out + [CanonRule(le, rules[|out|])])
  {
    var more := out + [CanonRule(le, rules[|out|])];
    forall k ensures DecodedAt(le, rules, more, k) {
      assert DecodedAt(le, rules, out, k);
    }
  }

  lemma DecodedAll(le: (Prefix, Prefix) -> bool, rules: seq<RawRule>, out: seq<Rule>)
    requires Decoded(le, rules, out) && |out| == |rules|
    ensures (forall r | r in rules :: RuleOk(r)) && out == CanonRules(le, rules)
  {
    forall k | 0 <= k < |rules| ensures RuleOk(rules[k]) && out[k] == CanonRule(le, rules[k]) {
      assert DecodedAt(le, rules, out, k);
    }
  }

  method DecodeRules(le: (Prefix, Prefix) -> bool, rules: seq<RawRule>) returns (r: Result<seq<Rule>>)
    ensures r.Ok? <==> forall r | r in rules :: RuleOk(r)
    ensures r.Ok? ==> r.value == CanonRules(le, rules)
  {
    var out: seq<Rule> := [];
    for i := 0 to |rules|
      invariant |out| == i && Decoded(le, rules, out)
    {
      var decoded := DecodeRule(le, rules[i]);
      if decoded.Err? {
        assert rules[i] in rules;
        return Err;
      }
      DecodedOneMore(le, rules, out);
      out := out + [decoded.value];
    }
    DecodedAll(le, rules, out);
    r := Ok(out);
  }

  /** The checks the decoder makes of a rule by itself. */
  method DecodeRule(le: (Prefix, Prefix) -> bool, rule: RawRule) returns (r: Result<Rule>)
    ensures r.Ok? <==> RuleOk(rule)
    ensures r.Ok? ==> r.value == CanonRule(le, rule)
  {
    if !SafeId(rule.id) { return Err; }
    var name := TrimSpace(rule.name);
    if |name| > 100 { return Err; }
    if (rule.protocol != "tcp" && rule.protocol != "udp") || rule.port < 1 || rule.port > 65535 { return Err; }
    if |rule.sources| == 0 || |rule.sources| > 128 { return Err; }
    var collected := CollectPrefixes(rule.sources);
    if collected.Err? { return Err; }
    r := Ok(Rule(rule.id, name, ProtoOf(rule.protocol).value, rule.port, SortBy(le, collected.value)));
  }

  lemma DedupAppend(each: seq<Prefix>, p: Prefix)
    ensures Dedup(each + [p]) == if p in Dedup(each) then Dedup(each) else Dedup(each) + [p]
  {
    assert (each + [p])[..|each|] == each;
  }

  /** The loop over the entries of a rule, each read by `f`. */
  method Collect(f: Source -> Option<Prefix>, sources: seq<Source>)
      returns (r: Result<seq<Prefix>>, ghost each: seq<Prefix>)
    ensures r.Ok? <==> forall s | s in sources :: f(s).Some?
    ensures r.Ok? ==> r.value == Dedup(each) && |each| == |sources|
    ensures r.Ok? ==> forall k | 0 <= k < |sources| :: f(sources[k]) == Some(each[k])
  {
    var seen: set<Prefix> := {};
    var cidrs: seq<Prefix> := [];
    each := [];
    for i := 0 to |sources|
      invariant |each| == i && forall k | 0 <= k < i :: f(sources[k]) == Some(each[k])
      invariant cidrs == Dedup(each) && forall p :: p in seen <==> p in cidrs
    {
      var prefix := f(sources[i]);
      if prefix.None? {
        assert sources[i] in sources;
        return Err, each;
      }
      DedupAppend(each, prefix.value);
      each := each + [prefix.value];
      if prefix.value !in seen {
        seen := seen + {prefix.value};
        cidrs := cidrs + [prefix.value];
      }
    }
    r := Ok(cidrs);
  }

  method CollectPrefixes(sources: seq<Source>) returns (r: Result<seq<Prefix>>)
    ensures r.Ok? <==> forall s | s in sources :: CanonPrefix(s).Some?
    ensures r.Ok? ==> r.value == Dedup(CanonEach(sources))
  {
    ghost var each;
    r, each := Collect(CanonPrefix, sources);
    if r.Ok? { CollectedAll(sources, each); }
  }

  lemma CollectedAll(sources: seq<Source>, each: seq<Prefix>)
    requires |each| == |sources| && forall k | 0 <= k < |sources| :: CanonPrefix(sources[k]) == Some(each[k])
    ensures (forall s | s in sources :: CanonPrefix(s).Some?) && each == CanonEach(sources)
  {
  }

  // ----- Decoding canonical rules again -----

  function Rewrite(r: Rule): RawRule {
    RawRule(r.id, r.name, ProtoText(r.protocol), r.port, AsNetworks(r.cidrs))
  }

  function AsNetworks(ps: seq<Prefix>): (r: seq<Source>)
    ensures |r| == |ps| && forall i | 0 <= i < |ps| :: r[i] == Network(ps[i])
  {
    seq(|ps|, i requires 0 <= i < |ps| => Network(ps[i]))
  }

  function RewriteAll(rules: seq<Rule>): (r: seq<RawRule>)
    ensures |r| == |rules| && forall i | 0 <= i < |rules| :: r[i] == Rewrite(rules[i])
  {
    seq(|rules|, i requires 0 <= i < |rules| => Rewrite(rules[i]))
  }

  /** A persisted policy, submitted again as a request. */
  function Resubmit(req: Request): RawRequest {
    RawRequest(req.revision, Some(RewriteAll(req.rules)))
  }

  /** A policy that is its own canonical form. */
  ghost predicate ReadsBack(le: (Prefix, Prefix) -> bool, req: Request) {
    Acceptable(Resubmit(req)) && Canonical(le, Resubmit(req)) == req
  }

  /** A request with one rule, as an operator would write it: spaces around the name, and a network
      with host bits. */
  lemma ExampleIsDecoded(le: (Prefix, Prefix) -> bool)
    ensures var ten := [false, false, false, false, true, false, true, false];
      var written := Prefix(Addr(V4, ten + Repeat(true, 24)), 8);
      var stored := Prefix(Addr(V4, ten + Repeat(false, 24)), 8);
      var raw := RawRequest(1, Some([RawRule("web", " Web ", "tcp", 443, [Network(written)])]));
      Acceptable(raw) && Canonical(le, raw) == Request(1, [Rule("web", "Web", Tcp, 443, [stored])])
  {
    var ten := [false, false, false, false, true, false, true, false];
    var written := Prefix(Addr(V4, ten + Repeat(true, 24)), 8);
    var stored := Prefix(Addr(V4, ten + Repeat(false, 24)), 8);
    TenIsCanonical(written, stored);
    var rule := RawRule("web", " Web ", "tcp", 443, [Network(written)]);
    WebIsTrimmed();
    OnePrefix(le, written, stored);
    assert RuleOk(rule);
    OneRule(le, rule);
  }

  lemma WebIsTrimmed()
    ensures TrimSpace(" Web ") == "Web" && SafeId("web")
  {
    assert " Web "[1..] == "Web ";
    assert TrimLeft(" Web ") == TrimLeft("Web ") == "Web ";
    assert "Web "[..3] == "Web";
    assert TrimRight("Web ") == TrimRight("Web") == "Web";
  }

  lemma TenIsCanonical(written: Prefix, stored: Prefix)
    requires var ten := [false, false, false, false, true, false, true, false];
      && written == Prefix(Addr(V4, ten + Repeat(true, 24)), 8)
      && stored == Prefix(Addr(V4, ten + Repeat(false, 24)), 8)
    ensures CanonPrefix(Network(written)) == Some(stored)
  {
    assert written.addr.bits[4] && !written.addr.bits[0] && !written.addr.bits[1];
    assert stored.addr.bits[4] && !stored.addr.bits[0] && !stored.addr.bits[1];
    assert Masked(written) == stored;
  }

  lemma OnePrefix(le: (Prefix, Prefix) -> bool, written: Prefix, stored: Prefix)
    requires CanonPrefix(Network(written)) == Some(stored)
    ensures CanonCidrs(le, [Network(written)]) == [stored]
  {
    assert CanonEach([Network(written)]) == [stored];
    assert [stored][..0] == [] && [stored][1..] == [];
    assert Dedup([stored]) == [stored];
    assert SortBy(le, [stored]) == Insert(le, stored, []) == [stored];
  }

  lemma OneRule(le: (Prefix, Prefix) -> bool, rule: RawRule)
    requires RuleOk(rule)
    ensures SortBy(RuleLe, CanonRules(le, [rule])) == [CanonRule(le, rule)]
  {
    assert CanonRules(le, [rule]) == [CanonRule(le, rule)];
    assert [CanonRule(le, rule)][1..] == [];
  }

  lemma {:induction false} DedupFacts(ps: seq<Prefix>)
    ensures Distinct(Dedup(ps)) && forall p :: p in Dedup(ps) <==> p in ps
    ensures |Dedup(ps)| <= |ps| && (ps != [] ==> Dedup(ps) != [])
  {
    if ps != [] {
      DedupFacts(ps[..|ps| - 1]);
      assert ps == ps[..|ps| - 1] + [ps[|ps| - 1]];
    }
  }

  lemma {:induction false} DedupOfDistinct(ps: seq<Prefix>)
    requires Distinct(ps)
    ensures Dedup(ps) == ps
  {
    if ps != [] {
      DedupOfDistinct(ps[..|ps| - 1]);
      assert ps == ps[..|ps| - 1] + [ps[|ps| - 1]];
    }
  }

  /** The prefixes of a canonical rule are exactly the canonical forms of its
      entries, each once, in order. */
  lemma CanonCidrsFacts(le: (Prefix, Prefix) -> bool, sources: seq<Source>)
    requires TotalPreorder(le)
    requires forall s | s in sources :: CanonPrefix(s).Some?
    ensures var out := CanonCidrs(le, sources);
      && SortedBy(le, out) && Distinct(out) && |out| <= |sources| && (sources != [] ==> out != [])
      && (forall p :: p in out <==> exists s :: s in sources && CanonPrefix(s).value == p)
  {
    var each := CanonEach(sources);
    DedupFacts(each);
    SortSorts(le, Dedup(each));
    SortPermutes(le, Dedup(each));
    SortKeepsDistinct(le, Dedup(each));
    forall p ensures p in CanonCidrs(le, sources) <==> exists s :: s in sources && CanonPrefix(s).value == p {
      SortSameElements(le, Dedup(each), p);
      if p in each {
        var i :| 0 <= i < |each| && each[i] == p;
        assert sources[i] in sources && CanonPrefix(sources[i]).value == p;
      }
      if exists s :: s in sources && CanonPrefix(s).value == p {
        var s :| s in sources && CanonPrefix(s).value == p;
        var i :| 0 <= i < |sources| && sources[i] == s;
        assert each[i] == p;
      }
    }
  }

  lemma CidrsReadBack(le: (Prefix, Prefix) -> bool, sources: seq<Source>, i: nat)
    requires TotalPreorder(le) && forall s | s in sources :: CanonPrefix(s).Some?
    requires i < |CanonCidrs(le, sources)|
    ensures var p := CanonCidrs(le, sources)[i]; CanonPrefix(Network(p)) == Some(p)
  {
    CanonCidrsFacts(le, sources);
    var p := CanonCidrs(le, sources)[i];
    assert p in CanonCidrs(le, sources);
    var s :| s in sources && CanonPrefix(s).value == p;
    CanonPrefixIdempotent(s);
  }

  lemma CanonicalCidrs(le: (Prefix, Prefix) -> bool, cidrs: seq<Prefix>)
    requires TotalPreorder(le) && SortedBy(le, cidrs) && Distinct(cidrs)
    requires forall i | 0 <= i < |cidrs| :: CanonPrefix(Network(cidrs[i])) == Some(cidrs[i])
    ensures forall s | s in AsNetworks(cidrs) :: CanonPrefix(s).Some?
    ensures CanonCidrs(le, AsNetworks(cidrs)) == cidrs
  {
    CollectedAll(AsNetworks(cidrs), cidrs);
    DedupOfDistinct(cidrs);
    SortOfSorted(le, cidrs);
  }

  lemma CanonRuleIdempotent(le: (Prefix, Prefix) -> bool, r: RawRule)
    requires TotalPreorder(le)
    requires RuleOk(r)
    ensures var again := Rewrite(CanonRule(le, r));
      RuleOk(again) && CanonRule(le, again) == CanonRule(le, r)
  {
    var cidrs := CanonCidrs(le, r.sources);
    CanonCidrsFacts(le, r.sources);
    forall i | 0 <= i < |cidrs| ensures CanonPrefix(Network(cidrs[i])) == Some(cidrs[i]) {
      CidrsReadBack(le, r.sources, i);
    }
    CanonicalCidrs(le, cidrs);
    TrimIdempotent(r.name);
  }

  lemma RuleLeIsTotal()
    ensures TotalPreorder(RuleLe)
  {}

  lemma CanonRulesMembers(le: (Prefix, Prefix) -> bool, rules: seq<RawRule>, c: Rule)
    requires forall r | r in rules :: RuleOk(r)
    ensures c in CanonRules(le, rules) <==> exists r :: r in rules && CanonRule(le, r) == c
  {
    var each := CanonRules(le, rules);
    if c in each {
      var i :| 0 <= i < |each| && each[i] == c;
      assert rules[i] in rules;
    }
    if r :| r in rules && CanonRule(le, r) == c {
      var i :| 0 <= i < |rules| && rules[i] == r;
      assert each[i] == c;
    }
  }

  /** Every rule of a canonical request comes from a rule of the request, and back. */
  lemma CanonicalRules(le: (Prefix, Prefix) -> bool, raw: RawRequest, c: Rule)
    requires Acceptable(raw)
    ensures c in Canonical(le, raw).rules <==> exists r :: r in raw.rules.value && CanonRule(le, r) == c
  {
    CanonRulesMembers(le, raw.rules.value, c);
    SortSameElements(RuleLe, CanonRules(le, raw.rules.value), c);
  }

  ghost predicate Separate(a: Rule, b: Rule) {
    a.id != b.id && (a.protocol != b.protocol || a.port != b.port)
  }

  ghost predicate AllSeparate(rules: seq<Rule>) {
    forall i, j :: 0 <= i < j < |rules| ==> Separate(rules[i], rules[j])
  }

  lemma SortingSeparates(each: seq<Rule>)
    requires AllSeparate(each)
    ensures AllSeparate(SortBy(RuleLe, each)) && |SortBy(RuleLe, each)| == |each|
  {
    SortPermutes(RuleLe, each);
    SortKeepsDistinct(RuleLe, each);
    var out := SortBy(RuleLe, each);
    forall i, j | 0 <= i < j < |out| ensures Separate(out[i], out[j]) {
      SortSameElements(RuleLe, each, out[i]);
      SortSameElements(RuleLe, each, out[j]);
      assert out[i] in out && out[j] in out;
      var a :| 0 <= a < |each| && each[a] == out[i];
      var b :| 0 <= b < |each| && each[b] == out[j];
      assert out[i] != out[j];
    }
  }

  lemma CanonicalSeparate(le: (Prefix, Prefix) -> bool, raw: RawRequest)
    requires Acceptable(raw)
    ensures var out := Canonical(le, raw).rules;
      |out| == |raw.rules.value| && forall i, j :: 0 <= i < j < |out| ==> Separate(out[i], out[j])
  {
    var rules := raw.rules.value;
    var each := CanonRules(le, rules);
    forall i, j | 0 <= i < j < |each| ensures Separate(each[i], each[j]) {
      assert NoClash(rules, i, j) && RuleOk(rules[i]) && RuleOk(rules[j]);
    }
    SortingSeparates(each);
  }

  /** Canonical rules stand in one order: TCP before UDP, and each by strictly rising port. */
  lemma CanonicalIsSorted(le: (Prefix, Prefix) -> bool, raw: RawRequest, i: nat, j: nat)
    requires Acceptable(raw) && i < j < |Canonical(le, raw).rules|
    ensures var a, b := Canonical(le, raw).rules[i], Canonical(le, raw).rules[j];
      (a.protocol.Tcp? && b.protocol.Udp?) || (a.protocol == b.protocol && a.port < b.port)
  {
    RuleLeIsTotal();
    SortSorts(RuleLe, CanonRules(le, raw.rules.value));
    CanonicalSeparate(le, raw);
  }

  /** Decoding a canonical policy again returns it unchanged, so every policy the
      agent writes passes the check it makes when it reads the file back. */
  lemma DecodingIsIdempotent(le: (Prefix, Prefix) -> bool, raw: RawRequest)
    requires TotalPreorder(le) && Acceptable(raw)
    ensures ReadsBack(le, Canonical(le, raw))
  {
    var out := Canonical(le, raw).rules;
    var again := RewriteAll(out);
    CanonicalSeparate(le, raw);
    forall i | 0 <= i < |out|
      ensures RuleOk(again[i]) && CanonRule(le, again[i]) == out[i]
    {
      assert out[i] in out;
      CanonicalRules(le, raw, out[i]);
      var r :| r in raw.rules.value && CanonRule(le, r) == out[i];
      CanonRuleIdempotent(le, r);
    }
    forall i, j | 0 <= i < j < |out| ensures NoClash(again, i, j) {
      assert Separate(out[i], out[j]);
    }
    assert CanonRules(le, again) == out;
    RuleLeIsTotal();
    SortSorts(RuleLe, CanonRules(le, raw.rules.value));
    SortOfSorted(RuleLe, out);
  }

  // ----- Compilation and packet semantics -----

  datatype Verdict = Accept | Drop

  datatype Atom = Atom(protocol: Proto, port: int, cidr: Option<Prefix>, verdict: Verdict)

  /** `protocol` is absent for a packet that is neither TCP nor UDP. */
  datatype Packet = Packet(src: Addr, protocol: Option<Proto>, dport: int)

  function AcceptAtoms(rule: Rule, cidrs: seq<Prefix>): seq<Atom> {
    if cidrs == [] then [] else [Atom(rule.protocol, rule.port, Some(cidrs[0]), Accept)] + AcceptAtoms(rule, cidrs[1..])
  }

  function Atoms(rules: seq<Rule>): seq<Atom> {
    if rules == [] then []
    else
      AcceptAtoms(rules[0], rules[0].cidrs) + [Atom(rules[0].protocol, rules[0].port, None, Drop)] + Atoms(rules[1..])
  }

  predicate OnPort(protocol: Proto, port: int, pkt: Packet) {
    pkt.protocol == Some(protocol) && pkt.dport == port
  }

  predicate AtomMatches(a: Atom, pkt: Packet) {
    OnPort(a.protocol, a.port, pkt) && (a.cidr.Some? ==> Contains(a.cidr.value, pkt.src))
  }

  /** First match decides; the chain's own policy is accept. */
  function Evaluate(atoms: seq<Atom>, pkt: Packet): Verdict {
    if atoms == [] then Accept
    else if AtomMatches(atoms[0], pkt) then atoms[0].verdict
    else Evaluate(atoms[1..], pkt)
  }

  ghost predicate RuleAdmits(cidrs: seq<Prefix>, a: Addr) {
    exists p :: p in cidrs && Contains(p, a)
  }

  lemma {:induction false} RuleDecides(rule: Rule, cidrs: seq<Prefix>, rest: seq<Atom>, pkt: Packet)
    ensures var tail := [Atom(rule.protocol, rule.port, None, Drop)] + rest;
      Evaluate(AcceptAtoms(rule, cidrs) + tail, pkt) ==
        if !OnPort(rule.protocol, rule.port, pkt) then Evaluate(rest, pkt)
        else if RuleAdmits(cidrs, pkt.src) then Accept else Drop
  {
    var tail := [Atom(rule.protocol, rule.port, None, Drop)] + rest;
    if cidrs == [] {
      assert AcceptAtoms(rule, cidrs) + tail == tail;
      assert tail[1..] == rest;
    } else {
      RuleDecides(rule, cidrs[1..], rest, pkt);
      assert (AcceptAtoms(rule, cidrs) + tail)[1..] == AcceptAtoms(rule, cidrs[1..]) + tail;
      assert cidrs == [cidrs[0]] + cidrs[1..];
    }
  }

  lemma {:induction false} RulesDecide(rules: seq<Rule>, pkt: Packet)
    requires forall i, j :: 0 <= i < j < |rules| ==> Separate(rules[i], rules[j])
    ensures Evaluate(Atoms(rules), pkt) == Accept <==>
      forall r | r in rules && OnPort(r.protocol, r.port, pkt) :: RuleAdmits(r.cidrs, pkt.src)
  {
    if rules != [] {
      var head, rest := rules[0], rules[1..];
      RulesDecide(rest, pkt);
      RuleDecides(head, head.cidrs, Atoms(rest), pkt);
      assert rules == [head] + rest;
      assert AcceptAtoms(head, head.cidrs) + [Atom(head.protocol, head.port, None, Drop)] + Atoms(rest)
        == AcceptAtoms(head, head.cidrs) + ([Atom(head.protocol, head.port, None, Drop)] + Atoms(rest));
      forall r | r in rest ensures Separate(head, r) {
        var i :| 0 <= i < |rest| && rest[i] == r;
        assert Separate(rules[0], rules[i + 1]);
      }
    }
  }

  /** The rules as written: each one on the port of the packet has an entry that covers its source. */
  ghost predicate Permits(rules: seq<RawRule>, pkt: Packet) {
    forall r | r in rules && pkt.protocol == ProtoOf(r.protocol) && pkt.dport == r.port ::
      exists s :: s in r.sources && Covers(s, pkt.src)
  }

  /** The whole path from request to packet filter: masking, removal of repeated
      entries and both sorts leave the meaning of the request as written. */
  lemma CompiledMeaning(le: (Prefix, Prefix) -> bool, raw: RawRequest, pkt: Packet)
    requires TotalPreorder(le) && Acceptable(raw)
    ensures Evaluate(Atoms(Canonical(le, raw).rules), pkt) == Accept <==> Permits(raw.rules.value, pkt)
  {
    var out := Canonical(le, raw).rules;
    CanonicalSeparate(le, raw);
    RulesDecide(out, pkt);
    forall r | r in raw.rules.value
      ensures CanonRule(le, r) in out
      ensures RuleAdmits(CanonRule(le, r).cidrs, pkt.src) <==> exists s :: s in r.sources && Covers(s, pkt.src)
    {
      CanonicalRules(le, raw, CanonRule(le, r));
      EntriesAdmit(le, r.sources, pkt.src);
    }
    forall c | c in out ensures exists r :: r in raw.rules.value && CanonRule(le, r) == c {
      CanonicalRules(le, raw, c);
    }
  }

  lemma EntriesAdmit(le: (Prefix, Prefix) -> bool, sources: seq<Source>, a: Addr)
    requires TotalPreorder(le)
    requires forall s | s in sources :: CanonPrefix(s).Some?
    ensures RuleAdmits(CanonCidrs(le, sources), a) <==> exists s :: s in sources && Covers(s, a)
  {
    CanonCidrsFacts(le, sources);
    forall s | s in sources
      ensures Contains(CanonPrefix(s).value, a) <==> Covers(s, a)
    {
      CanonPrefixMeaning(s, a);
    }
    var out := CanonCidrs(le, sources);
    if s :| s in sources && Covers(s, a) {
      assert CanonPrefix(s).value in out;
    }
    if RuleAdmits(out, a) {
      var p :| p in out && Contains(p, a);
      var s :| s in sources && CanonPrefix(s).value == p;
      assert Covers(s, a);
    }
  }

  /** An allowlist of IPv4 entries drops every IPv6 source on its port. */
  lemma FamilyIsExclusive(le: (Prefix, Prefix) -> bool, raw: RawRequest, r: RawRule, pkt: Packet)
    requires TotalPreorder(le) && Acceptable(raw) && r in raw.rules.value
    requires pkt.protocol == ProtoOf(r.protocol) && pkt.dport == r.port && pkt.src.family.V6?
    requires forall s | s in r.sources :: (s.Address? ==> s.a.family.V4?) && (s.Network? ==> s.net.addr.family.V4?)
    ensures Evaluate(Atoms(Canonical(le, raw).rules), pkt) == Drop
  {
    CompiledMeaning(le, raw, pkt);
    assert forall s | s in r.sources :: !Covers(s, pkt.src);
  }
}
