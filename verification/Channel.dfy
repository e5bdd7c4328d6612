/** One direction of the encrypted channel: a single counter shared by the JSON and the
    binary framing. Authenticated encryption, compression and payload encoding are ideal
    functions; layouts of nonce, header and associated data are explicit. */
module Channel {
  import opened Common

  type Byte = x: int | 0 <= x < 256

  const MAX_PACKET: nat := 16 * 1024 * 1024
  const OVERHEAD: nat := 16
  const HEADER_SIZE: nat := 13
  const COMPRESSION_THRESHOLD: nat := 1024
  const MAX_SEQUENCE: nat := Power(8) - 1

  // ----- Layouts -----

  function Power(n: nat): (r: nat)
    ensures r > 0
  {
    if n == 0 then 1 else 256 * Power(n - 1)
  }

  /** The lowest `n` bytes of a number, most significant first. */
  function BigEndian(x: nat, n: nat): (r: seq<Byte>)
    ensures |r| == n
  {
    if n == 0 then [] else BigEndian(x / 256, n - 1) + [x % 256]
  }

  function Number(bs: seq<Byte>): nat {
    if bs == [] then 0 else 256 * Number(bs[..|bs| - 1]) + bs[|bs| - 1]
  }

  lemma {:induction false} NumberOfBigEndian(x: nat, n: nat)
    requires x < Power(n)
    ensures Number(BigEndian(x, n)) == x
  {
    if n > 0 {
      NumberOfBigEndian(x / 256, n - 1);
      var r := BigEndian(x, n);
      assert r[..n - 1] == BigEndian(x / 256, n - 1);
    }
  }

  function Ascii(s: string): (r: seq<Byte>)
    ensures |r| == |s| && forall i | 0 <= i < |s| :: r[i] == s[i] as int % 256
  {
    seq(|s|, i requires 0 <= i < |s| => s[i] as int % 256)
  }

  /** Section 3.2 of RFC 5116: a fixed field of four zero bytes and the counter. */
  function Nonce(sequence: nat): (r: seq<Byte>)
    ensures |r| == 12
  {
    [0, 0, 0, 0] + BigEndian(sequence, 8)
  }

  const PROTOCOL := "aswired-agent-v1"

  function JsonAad(sequence: nat): seq<Byte> {
    Ascii(PROTOCOL + "|") + Nonce(sequence)
  }

  function Header(flag: Byte, sequence: nat): (r: seq<Byte>)
    ensures |r| == HEADER_SIZE
  {
    Ascii("ASW2") + [flag] + BigEndian(sequence, 8)
  }

  function BinaryAad(header: seq<Byte>): seq<Byte> {
    Ascii(PROTOCOL + "/binary-v2|") + header
  }

  /** The fixed field comes first, and the counter reads back from the rest. */
  lemma NonceLayout(i: nat)
    requires i <= MAX_SEQUENCE
    ensures Nonce(i)[..4] == [0, 0, 0, 0] && Number(Nonce(i)[4..]) == i
  {
    assert Nonce(i)[4..] == BigEndian(i, 8);
    NumberOfBigEndian(i, 8);
  }

  lemma NonceIsInjective(i: nat, j: nat)
    requires i <= MAX_SEQUENCE && j <= MAX_SEQUENCE && Nonce(i) == Nonce(j)
    ensures i == j
  {
    assert BigEndian(i, 8) == Nonce(i)[4..] == Nonce(j)[4..] == BigEndian(j, 8);
    NumberOfBigEndian(i, 8);
    NumberOfBigEndian(j, 8);
  }

  /** The two framings never share associated data. */
  lemma FramingsAreSeparate(sequence: nat, header: seq<Byte>)
    ensures JsonAad(sequence) != BinaryAad(header)
  {
    assert JsonAad(sequence)[16] == '|' as int;
    assert BinaryAad(header)[16] == '/' as int;
  }

  lemma BinaryAadIsInjective(h1: seq<Byte>, h2: seq<Byte>)
    requires BinaryAad(h1) == BinaryAad(h2)
    ensures h1 == h2
  {
    var n := |PROTOCOL + "/binary-v2|"|;
    assert h1 == BinaryAad(h1)[n..] && h2 == BinaryAad(h2)[n..];
  }

  lemma HeaderFacts(flag: Byte, sequence: nat)
    requires sequence <= MAX_SEQUENCE
    ensures var h := Header(flag, sequence); h[..4] == Ascii("ASW2") && h[4] == flag && Number(h[5..]) == sequence
  {
    assert Header(flag, sequence)[5..] == BigEndian(sequence, 8);
    NumberOfBigEndian(sequence, 8);
  }

  // ----- Ideal primitives -----

  /** What travels: the output of sealing, or bytes nobody sealed. */
  datatype Cipher = Sealed(nonce: seq<Byte>, aad: seq<Byte>, data: seq<Byte>) | Junk(size: nat)

  function Size(c: Cipher): nat {
    match c
    case Sealed(_, _, data) => |data| + OVERHEAD
    case Junk(size) => size
  }

  function Decrypt(c: Cipher, nonce: seq<Byte>, aad: seq<Byte>): Result<seq<Byte>> {
    if c.Sealed? && c.nonce == nonce && c.aad == aad then Ok(c.data) else Err
  }

  /** Payload encoding and compression. */
  datatype Codec<!M> = Codec(marshal: M -> Result<seq<Byte>>, unmarshal: seq<Byte> -> Result<M>,
                            gzip: seq<Byte> -> seq<Byte>, gunzip: seq<Byte> -> Result<seq<Byte>>)

  ghost predicate Lawful<M(!new)>(c: Codec<M>) {
    && (forall m :: c.marshal(m).Ok? ==> c.unmarshal(c.marshal(m).value) == Ok(m))
    && (forall d :: c.gunzip(c.gzip(d)) == Ok(d))
  }

  /** A JSON packet carries its sequence in the clear and text that may not decode; a
      binary packet carries its header. */
  datatype Frame =
    | JsonFrame(sequence: nat, text: Option<Cipher>, length: nat)
    | BinaryFrame(header: seq<Byte>, body: Cipher)

  /** Length of unpadded base64 text. */
  function TextLength(n: nat): nat {
    (8 * n + 5) / 6
  }

  // ----- Sealing and opening -----

  function SealJson<M>(c: Codec<M>, sent: nat, m: M): Result<Frame> {
    var data := c.marshal(m);
    if data.Err? || |data.value| > MAX_PACKET || sent >= MAX_SEQUENCE then Err
    else
      var body := Sealed(Nonce(sent + 1), JsonAad(sent + 1), data.value);
      Ok(JsonFrame(sent + 1, Some(body), TextLength(Size(body))))
  }

  /** Compression is kept only when it makes a long enough payload shorter. */
  function Packed<M>(c: Codec<M>, data: seq<Byte>, compress: bool): (seq<Byte>, Byte) {
    if compress && |data| >= COMPRESSION_THRESHOLD && |c.gzip(data)| < |data| then (c.gzip(data), 1) else (data, 0)
  }

  function SealBin<M>(c: Codec<M>, sent: nat, m: M, compress: bool): Result<Frame> {
    var data := c.marshal(m);
    if data.Err? || |data.value| > MAX_PACKET || sent >= MAX_SEQUENCE then Err
    else
      var packed := Packed(c, data.value, compress);
      var header := Header(packed.1, sent + 1);
      Ok(BinaryFrame(header, Sealed(Nonce(sent + 1), BinaryAad(header), packed.0)))
  }

  /** The next expected sequence, in 64 bits. */
  function Expected(received: nat): nat {
    if received >= MAX_SEQUENCE then 0 else received + 1
  }

  function Decoded<M>(c: Codec<M>, data: seq<Byte>): Result<M> {
    if |data| > MAX_PACKET then Err else c.unmarshal(data)
  }

  function OpenJson<M>(c: Codec<M>, received: nat, f: Frame): Result<M>
    requires f.JsonFrame?
  {
    if f.sequence == 0 || f.sequence != Expected(received) || f.length > 2 * MAX_PACKET || f.text.None? then Err
    else
      var data := Decrypt(f.text.value, Nonce(f.sequence), JsonAad(f.sequence));
      if data.Err? then Err else Decoded(c, data.value)
  }

  function Unpacked<M>(c: Codec<M>, data: seq<Byte>, flag: Byte): Result<seq<Byte>> {
    if flag == 1 then c.gunzip(data) else Ok(data)
  }

  function OpenBin<M>(c: Codec<M>, received: nat, f: Frame, allowCompression: bool): Result<M>
    requires f.BinaryFrame?
  {
    var size := |f.header| + Size(f.body);
    if |f.header| != HEADER_SIZE || size < HEADER_SIZE + OVERHEAD || size > HEADER_SIZE + MAX_PACKET + OVERHEAD then Err
    else if f.header[..4] != Ascii("ASW2") || f.header[4] > 1 || (f.header[4] == 1 && !allowCompression) then Err
    else
      var sequence := Number(f.header[5..]);
      if sequence == 0 || sequence != Expected(received) then Err
      else
        var data := Decrypt(f.body, Nonce(sequence), BinaryAad(f.header));
        if data.Err? then Err
        else
          var plain := Unpacked(c, data.value, f.header[4]);
          if plain.Err? then Err else Decoded(c, plain.value)
  }

  function Open<M>(c: Codec<M>, received: nat, f: Frame, allowCompression: bool): Result<M> {
    if f.JsonFrame? then OpenJson(c, received, f) else OpenBin(c, received, f, allowCompression)
  }

  class Endpoint<!M> {
    const codec: Codec<M>
    var sent: nat
    var received: nat

    constructor (codec: Codec<M>)
      ensures this.codec == codec && sent == 0 && received == 0
    {
      this.codec, sent, received := codec, 0, 0;
    }

    method Seal(m: M) returns (r: Result<Frame>)
      modifies this`sent
      ensures r == SealJson(codec, old(sent), m)
      ensures sent == if r.Ok? then old(sent) + 1 else old(sent)
    {
      var data := codec.marshal(m);
      if data.Err? || |data.value| > MAX_PACKET { return Err; }
      if sent >= MAX_SEQUENCE { return Err; }
      sent := sent + 1;
      var body := Sealed(Nonce(sent), JsonAad(sent), data.value);
      r := Ok(JsonFrame(sent, Some(body), TextLength(Size(body))));
    }

    method SealBinary(m: M, compress: bool) returns (r: Result<Frame>)
      modifies this`sent
      ensures r == SealBin(codec, old(sent), m, compress)
      ensures sent == if r.Ok? then old(sent) + 1 else old(sent)
      ensures r.Ok? ==>
        var data := codec.marshal(m).value;
        var shorter := compress && |data| >= COMPRESSION_THRESHOLD && |codec.gzip(data)| < |data|;
        && r.value.BinaryFrame? && r.value.body.Sealed?
        && r.value.body.data == (if shorter then codec.gzip(data) else data)
        && r.value.header[4] == if shorter then 1 else 0
    {
      var encoded := codec.marshal(m);
      if encoded.Err? || |encoded.value| > MAX_PACKET { return Err; }
      var data, flag: Byte := encoded.value, 0;
      if compress && |data| >= COMPRESSION_THRESHOLD {
        var short := codec.gzip(data);
        if |short| < |data| { data, flag := short, 1; }
      }
      if sent >= MAX_SEQUENCE { return Err; }
      sent := sent + 1;
      var header := Header(flag, sent);
      r := Ok(BinaryFrame(header, Sealed(Nonce(sent), BinaryAad(header), data)));
    }

    /** A rejected packet changes no counter. */
    method OpenPacket(f: Frame) returns (r: Result<M>)
      requires f.JsonFrame? && received <= MAX_SEQUENCE
      modifies this`received
      ensures r == OpenJson(codec, old(received), f)
      ensures received == if r.Ok? then old(received) + 1 else old(received)
    {
      if f.sequence == 0 || f.sequence != Expected(received) { return Err; }
      if f.length > 2 * MAX_PACKET || f.text.None? { return Err; }
      var data := Decrypt(f.text.value, Nonce(f.sequence), JsonAad(f.sequence));
      if data.Err? || |data.value| > MAX_PACKET { return Err; }
      r := codec.unmarshal(data.value);
      if r.Ok? { received := f.sequence; }
    }

    method OpenBinary(f: Frame, allowCompression: bool) returns (r: Result<M>)
      requires f.BinaryFrame? && received <= MAX_SEQUENCE
      modifies this`received
      ensures r == OpenBin(codec, old(received), f, allowCompression)
      ensures received == if r.Ok? then old(received) + 1 else old(received)
    {
      var size := |f.header| + Size(f.body);
      if |f.header| != HEADER_SIZE || size < HEADER_SIZE + OVERHEAD || size > HEADER_SIZE + MAX_PACKET + OVERHEAD {
        return Err;
      }
      if f.header[..4] != Ascii("ASW2") || f.header[4] > 1 || (f.header[4] == 1 && !allowCompression) { return Err; }
      var sequence := Number(f.header[5..]);
      if sequence == 0 || sequence != Expected(received) { return Err; }
      var data := Decrypt(f.body, Nonce(sequence), BinaryAad(f.header));
      if data.Ok? && f.header[4] == 1 { data := codec.gunzip(data.value); }
      if data.Err? || |data.value| > MAX_PACKET { return Err; }
      r := codec.unmarshal(data.value);
      if r.Ok? { received := sequence; }
    }
  }

  // ----- A direction under an adversarial network -----

  datatype Sent<M> = Sent(message: M, binary: bool, compress: bool)

  /** What has been sealed, what has been accepted. */
  datatype Direction<M> = Direction(sealed: seq<Sent<M>>, frames: seq<Frame>, received: nat, accepted: seq<M>)

  function FrameOf<M>(c: Codec<M>, index: nat, s: Sent<M>): Result<Frame> {
    if s.binary then SealBin(c, index, s.message, s.compress) else SealJson(c, index, s.message)
  }

  function Body(f: Frame): Option<Cipher> {
    if f.JsonFrame? then f.text else Some(f.body)
  }

  /** The network may drop, repeat, reorder and re-frame what was sealed, and invent what
      was not; it cannot make a sealed text of its own. */
  ghost predicate Deliverable(frames: seq<Frame>, f: Frame) {
    Body(f).Some? && Body(f).value.Sealed? ==> exists g :: g in frames && Body(g) == Body(f)
  }

  datatype Event<M> = SealEvent(s: Sent<M>) | DeliverEvent(f: Frame, allowCompression: bool)

  ghost predicate Step<M>(c: Codec<M>, d: Direction<M>, e: Event<M>, d2: Direction<M>) {
    match e
    case SealEvent(s) =>
      var f := FrameOf(c, |d.frames|, s);
      d2 == if f.Ok? then d.(sealed := d.sealed + [s], frames := d.frames + [f.value]) else d
    case DeliverEvent(f, allow) =>
      && Deliverable(d.frames, f)
      && var m := Open(c, d.received, f, allow);
         d2 == if m.Ok? then d.(received := d.received + 1, accepted := d.accepted + [m.value]) else d
  }

  ghost predicate FrameAt<M>(c: Codec<M>, d: Direction<M>, i: int) {
    0 <= i < |d.frames| && |d.frames| == |d.sealed| ==> FrameOf(c, i, d.sealed[i]) == Ok(d.frames[i])
  }

  /** What was accepted is a prefix of what was sealed. */
  ghost predicate Inv<M>(c: Codec<M>, d: Direction<M>) {
    && |d.sealed| == |d.frames| <= MAX_SEQUENCE
    && (forall i {:trigger FrameAt(c, d, i)} :: FrameAt(c, d, i))
    && d.received == |d.accepted| <= |d.frames|
    && forall i | 0 <= i < d.received :: d.accepted[i] == d.sealed[i].message
  }

  /** A frame opens only as the very message sealed at the expected place. */
  lemma OpensInOrder<M(!new)>(c: Codec<M>, d: Direction<M>, f: Frame, allow: bool)
    requires Lawful(c) && Inv(c, d) && Deliverable(d.frames, f) && Open(c, d.received, f, allow).Ok?
    ensures d.received < |d.frames| && Open(c, d.received, f, allow) == Ok(d.sealed[d.received].message)
  {
    var sequence := if f.JsonFrame? then f.sequence else Number(f.header[5..]);
    assert Body(f).Some? && Body(f).value.Sealed? && Body(f).value.nonce == Nonce(sequence);
    var g :| g in d.frames && Body(g) == Body(f);
    var i :| 0 <= i < |d.frames| && d.frames[i] == g;
    assert FrameAt(c, d, i);
    NonceIsInjective(sequence, i + 1);
    if f.JsonFrame? {
      OpensJson(c, i, d.sealed[i], f);
    } else {
      OpensBin(c, i, d.sealed[i], f, allow);
    }
  }

  lemma OpensJson<M(!new)>(c: Codec<M>, i: nat, s: Sent<M>, f: Frame)
    requires Lawful(c) && FrameOf(c, i, s).Ok? && Body(FrameOf(c, i, s).value) == Body(f)
    requires f.JsonFrame? && OpenJson(c, i, f).Ok?
    ensures OpenJson(c, i, f) == Ok(s.message)
  {
    FramingsAreSeparate(f.sequence, if s.binary then FrameOf(c, i, s).value.header else []);
  }

  lemma OpensBin<M(!new)>(c: Codec<M>, i: nat, s: Sent<M>, f: Frame, allow: bool)
    requires Lawful(c) && FrameOf(c, i, s).Ok? && Body(FrameOf(c, i, s).value) == Body(f)
    requires f.BinaryFrame? && OpenBin(c, i, f, allow).Ok?
    ensures OpenBin(c, i, f, allow) == Ok(s.message)
  {
    FramingsAreSeparate(i + 1, f.header);
    if s.binary {
      BinaryAadIsInjective(FrameOf(c, i, s).value.header, f.header);
      PackedUnpacks(c, s, i);
    }
  }

  lemma PackedUnpacks<M(!new)>(c: Codec<M>, s: Sent<M>, i: nat)
    requires Lawful(c) && s.binary && SealBin(c, i, s.message, s.compress).Ok?
    ensures var f := SealBin(c, i, s.message, s.compress).value;
      Unpacked(c, f.body.data, f.header[4]) == c.marshal(s.message)
  {
    var data := c.marshal(s.message).value;
    HeaderFacts(Packed(c, data, s.compress).1, i + 1);
    assert c.gunzip(c.gzip(data)) == Ok(data);
  }

  lemma StepKeepsInv<M(!new)>(c: Codec<M>, d: Direction<M>, e: Event<M>, d2: Direction<M>)
    requires Lawful(c) && Inv(c, d) && Step(c, d, e, d2)
    ensures Inv(c, d2)
  {
    if e.DeliverEvent? && d2 != d {
      OpensInOrder(c, d, e.f, e.allowCompression);
    }
    forall i ensures FrameAt(c, d2, i) {
      assert FrameAt(c, d, i);
    }
  }

  ghost predicate Run<M>(c: Codec<M>, ds: seq<Direction<M>>, es: seq<Event<M>>) {
    && |ds| == |es| + 1 && ds[0] == Direction([], [], 0, [])
    && forall i | 0 <= i < |es| :: Step(c, ds[i], es[i], ds[i + 1])
  }

  lemma {:induction false} RunsKeepInv<M(!new)>(c: Codec<M>, ds: seq<Direction<M>>, es: seq<Event<M>>, i: nat)
    requires Lawful(c) && Run(c, ds, es) && i < |ds|
    ensures Inv(c, ds[i])
  {
    if i > 0 {
      RunsKeepInv(c, ds, es, i - 1);
      StepKeepsInv(c, ds[i - 1], es[i - 1], ds[i]);
    }
  }

  function Messages<M>(s: seq<Sent<M>>): (r: seq<M>)
    ensures |r| == |s| && forall i | 0 <= i < |s| :: r[i] == s[i].message
  {
    seq(|s|, i requires 0 <= i < |s| => s[i].message)
  }

  lemma FrameNonce<M>(c: Codec<M>, d: Direction<M>, a: nat)
    requires Inv(c, d) && a < |d.frames|
    ensures var f := Body(d.frames[a]); f.Some? && f.value.Sealed? && f.value.nonce == Nonce(a + 1)
  {
    assert FrameAt(c, d, a);
  }

  /** Under any drop, repetition, reordering or re-framing, and any mix of framings, the
      accepted messages are a prefix of the sealed ones, and no nonce is used twice. */
  lemma AcceptedIsPrefix<M(!new)>(c: Codec<M>, ds: seq<Direction<M>>, es: seq<Event<M>>, i: nat, a: nat, b: nat)
    requires Lawful(c) && Run(c, ds, es) && i < |ds|
    ensures ds[i].accepted <= Messages(ds[i].sealed)
    ensures a < b < |ds[i].frames| ==>
      var f, g := Body(ds[i].frames[a]), Body(ds[i].frames[b]);
      f.Some? && g.Some? && f.value.Sealed? && g.value.Sealed? && f.value.nonce != g.value.nonce
  {
    RunsKeepInv(c, ds, es, i);
    if a < b < |ds[i].frames| {
      FrameNonce(c, ds[i], a);
      FrameNonce(c, ds[i], b);
      if Nonce(a + 1) == Nonce(b + 1) {
        NonceIsInjective(a + 1, b + 1);
      }
    }
  }

  /** The next sealed packet, delivered as it was sealed, passes every check. */
  lemma NextInOrderOpens<M(!new)>(c: Codec<M>, d: Direction<M>)
    requires Lawful(c) && Inv(c, d) && d.received < |d.frames|
    ensures Open(c, d.received, d.frames[d.received], true) == Ok(d.sealed[d.received].message)
    ensures !d.sealed[d.received].compress ==>
      Open(c, d.received, d.frames[d.received], false) == Ok(d.sealed[d.received].message)
  {
    var i, s := d.received, d.sealed[d.received];
    assert FrameAt(c, d, i);
    if s.binary {
      var data := c.marshal(s.message).value;
      HeaderFacts(Packed(c, data, s.compress).1, i + 1);
      PackedUnpacks(c, s, i);
    }
  }
}
