/** The metadata in front of every mux frame. */
module Frames {
  import opened Bytes
  import opened Buf
  import opened Addresses

  const NEW: Byte := 1
  const KEEP: Byte := 2
  const END: Byte := 3
  const KEEPALIVE: Byte := 4

  const OPTION_DATA: Byte := 1
  const OPTION_ERROR: Byte := 2

  const MAX_META := 512

  datatype Network = TCP | UDP | Other

  datatype Destination = Destination(network: Network, address: Address, port: nat)

  datatype Inbound = Inbound(source: Option<Destination>, local: Option<Destination>)

  datatype FrameMetadata = FrameMetadata(id: nat,
                                         status: Byte,
                                         option: Byte,
                                         target: Option<Destination>,
                                         globalID: seq<Byte>,
                                         inbound: Option<Inbound>)

  const NO_GLOBAL_ID: seq<Byte> := [0, 0, 0, 0, 0, 0, 0, 0]

  predicate HasData(f: FrameMetadata) {
    f.option % 2 == 1
  }

  function MuxParser(parseIP: seq<Byte> -> Option<IP>): Parser {
    Parser(map[1 := V4, 2 := Name, 3 := V6], map[V4 := 1, Name := 2, V6 := 3], true, (b: Byte) => b, parseIP)
  }

  predicate DestOk(d: Destination) {
    WellFormed(d.address) && d.port < 65536
  }

  predicate OptDestOk(d: Option<Destination>) {
    d.Some? ==> DestOk(d.value)
  }

  /** The types of the Go fields, and the target that a New frame must have. */
  predicate MetaOk(f: FrameMetadata) {
    && f.id < 65536 && |f.globalID| == 8
    && (f.status == NEW ==> f.target.Some?)
    && OptDestOk(f.target)
    && (f.inbound.Some? ==> OptDestOk(f.inbound.value.source) && OptDestOk(f.inbound.value.local))
  }

  // ----- writing -----

  function NetworkByte(n: Network): seq<Byte> {
    match n case TCP => [1] case UDP => [2] case Other => []
  }

  function DestBytes(p: Parser, d: Destination): Written
    requires DestOk(d)
  {
    var w := AddressPortBytes(p, d.address, d.port);
    Written(w.ok, NetworkByte(d.network) + w.bytes)
  }

  /** A destination on the wire: network 1 or 2, the port, then type byte 1 and four bytes, type byte 2 with a
      length byte and a name, or type byte 3 and sixteen bytes. */
  lemma DestLayout(parseIP: seq<Byte> -> Option<IP>, d: Destination)
    requires DestOk(d) && d.network != Other && (d.address.Domain? ==> |d.address.name| < 256)
    ensures var w := DestBytes(MuxParser(parseIP), d);
            && w.ok
            && w.bytes == [if d.network == TCP then 1 else 2] + PutUint16(d.port) +
                          match d.address {
                            case IPv4(ip) => [1] + ip
                            case Domain(name) => [2, |name| as Byte] + name
                            case IPv6(ip) => [3] + ip
                          }
  {
    hide PutUint16;
    assert d.address.Domain? ==> |d.address.name| % 256 == |d.address.name|;
  }

  predicate Sendable(d: Option<Destination>) {
    d.Some? && d.value.network != Other
  }

  function InboundBytes(p: Parser, i: Inbound): Written
    requires OptDestOk(i.source) && OptDestOk(i.local)
  {
    if !Sendable(i.source) then Written(true, [])
    else
      var s := DestBytes(p, i.source.value);
      if !s.ok || !Sendable(i.local) then s
      else
        var l := DestBytes(p, i.local.value);
        Written(l.ok, s.bytes + l.bytes)
  }

  function Header(f: FrameMetadata): (h: seq<Byte>)
    requires f.id < 65536
    ensures |h| == 4
  {
    PutUint16(f.id) + [f.status, f.option]
  }

  /** What follows the four bytes every frame has; `udp` is the packet's own address, if any. */
  function TailBytes(p: Parser, f: FrameMetadata, udp: Option<Destination>): Written
    requires MetaOk(f) && OptDestOk(udp)
  {
    if f.status == NEW then
      var t := DestBytes(p, f.target.value);
      if !t.ok then t
      else if f.inbound.Some? then
        var i := InboundBytes(p, f.inbound.value);
        Written(i.ok, t.bytes + i.bytes)
      else Written(true, t.bytes + if udp.Some? then f.globalID else [])
    else if udp.Some? then
      Written(true, DestBytes(p, udp.value.(network := UDP)).bytes)
    else Written(true, [])
  }

  function MetaBytes(p: Parser, f: FrameMetadata, udp: Option<Destination>): Written
    requires MetaOk(f) && OptDestOk(udp)
  {
    var t := TailBytes(p, f, udp);
    var body := Header(f) + t.bytes;
    Written(t.ok, PutUint16(Wrap(|body|)) + body)
  }

  // ----- reading -----

  function ParseDest(p: Parser, s: seq<Byte>): (r: Read<Destination>)
    ensures r.ReadOk? ==> |r.rest| < |s| && DestOk(r.value) && r.value.network != Other
  {
    if s == [] then ReadError
    else
      match ParseAddressPort(p, s[1..])
      case ReadError => ReadError
      case ReadOk(a, rest) =>
        if s[0] == 1 then ReadOk(Destination(TCP, a.address, a.port), rest)
        else if s[0] == 2 then ReadOk(Destination(UDP, a.address, a.port), rest)
        else ReadError
  }

  /** End of metadata, or padding. */
  predicate NoMore(s: seq<Byte>) {
    s == [] || s[0] == 0
  }

  function ParseInbound(p: Parser, s: seq<Byte>): Option<Inbound> {
    if NoMore(s) then Some(Inbound(None, None))
    else
      match ParseDest(p, s)
      case ReadError => None
      case ReadOk(source, rest) =>
        if NoMore(rest) then Some(Inbound(Some(source), None))
        else
          match ParseDest(p, rest)
          case ReadError => None
          case ReadOk(local, _) => Some(Inbound(Some(source), Some(local)))
  }

  /** The part of a New frame behind the target. */
  function ParseNewTail(p: Parser, f: FrameMetadata, s: seq<Byte>, reverse: bool): Option<FrameMetadata>
    requires f.target.Some?
  {
    if reverse then
      match ParseInbound(p, s)
      case None => None
      case Some(i) => Some(f.(inbound := Some(i)))
    else if HasData(f) && f.target.value.network == UDP && |s| >= 8 then Some(f.(globalID := s[..8]))
    else Some(f)
  }

  predicate HasTarget(b: seq<Byte>)
    requires |b| >= 4
  {
    b[2] == NEW || (b[2] == KEEP && |b| > 4 && b[4] == 2)
  }

  function ParseBody(p: Parser, b: seq<Byte>, reverse: bool): Option<FrameMetadata> {
    if |b| < 4 then None
    else
      var f := FrameMetadata(Word(b[0], b[1]), b[2], b[3], None, NO_GLOBAL_ID, None);
      if !HasTarget(b) then Some(f)
      else if |b| < 8 then None
      else
        match ParseDest(p, b[4..])
        case ReadError => None
        case ReadOk(target, rest) =>
          var g := f.(target := Some(target));
          if b[2] != NEW then Some(g) else ParseNewTail(p, g, rest, reverse)
  }

  function ParseMeta(p: Parser, s: seq<Byte>, reverse: bool): Read<FrameMetadata> {
    if |s| < 2 then ReadError
    else
      var n := Uint16(s[..2]);
      if n > MAX_META || |s| < 2 + n then ReadError
      else
        match ParseBody(p, s[2..2 + n], reverse)
        case None => ReadError
        case Some(f) => ReadOk(f, s[2 + n..])
  }

  // ----- the round trip -----

  predicate CanonicalDest(p: Parser, d: Destination) {
    d.network != Other && d.port < 65536 && Canonical(p, d.address)
  }

  predicate CanonicalIfSent(p: Parser, d: Option<Destination>) {
    Sendable(d) ==> CanonicalDest(p, d.value)
  }

  /** A frame whose addresses mean the same at both ends, read in the mode it was written in. */
  predicate Agreed(p: Parser, f: FrameMetadata, udp: Option<Destination>, reverse: bool) {
    && MetaOk(f) && OptDestOk(udp)
    && (f.status == NEW ==>
          && f.target.Some? && CanonicalDest(p, f.target.value)
          && (reverse <==> f.inbound.Some?)
          && (reverse && f.inbound.Some? ==>
                CanonicalIfSent(p, f.inbound.value.source) && CanonicalIfSent(p, f.inbound.value.local)))
    && (f.status == KEEP && udp.Some? ==> Canonical(p, udp.value.address))
  }

  function Kept(d: Option<Destination>): Option<Destination> {
    if Sendable(d) then d else None
  }

  /** What the peer gets to see of a frame. */
  function Received(f: FrameMetadata, udp: Option<Destination>): FrameMetadata
    requires f.status == NEW ==> f.target.Some?
  {
    var g := FrameMetadata(f.id, f.status, f.option, None, NO_GLOBAL_ID, None);
    if f.status == NEW then
      if f.inbound.Some? then
        var i := f.inbound.value;
        g.(target := f.target,
           inbound := Some(if Sendable(i.source) then Inbound(i.source, Kept(i.local)) else Inbound(None, None)))
      else g.(target := f.target,
              globalID := if HasData(f) && f.target.value.network == UDP && udp.Some? then f.globalID else NO_GLOBAL_ID)
    else if f.status == KEEP && udp.Some? then
      g.(target := Some(Destination(UDP, udp.value.address, udp.value.port)))
    else g
  }

  /** A parser that reads back every family it writes. */
  ghost predicate Sound(p: Parser) {
    forall f: Family :: Serves(p, f)
  }

  lemma MuxSound(parseIP: seq<Byte> -> Option<IP>)
    ensures Sound(MuxParser(parseIP))
  {
    forall f: Family ensures Serves(MuxParser(parseIP), f) {
      match f
      case V4 =>
      case V6 =>
      case Name =>
    }
  }

  lemma CanonicalIsWritten(p: Parser, a: Address)
    requires Sound(p) && Canonical(p, a)
    ensures WellFormed(a) && AddressBytes(p, a).ok
    ensures 1 <= |AddressBytes(p, a).bytes| <= 257
    ensures !a.Domain? ==> |AddressBytes(p, a).bytes| <= 17
  {
    assert Serves(p, FamilyOf(a));
  }

  lemma DestRoundTrip(p: Parser, d: Destination, rest: seq<Byte>)
    requires Sound(p) && CanonicalDest(p, d)
    ensures DestOk(d) && DestBytes(p, d).ok
    ensures ParseDest(p, DestBytes(p, d).bytes + rest) == ReadOk(d, rest)
    ensures DestBytes(p, d).bytes != [] && DestBytes(p, d).bytes[0] == (if d.network == TCP then 1 else 2)
    ensures 4 <= |DestBytes(p, d).bytes| <= 260
    ensures !d.address.Domain? ==> |DestBytes(p, d).bytes| <= 20
  {
    hide AddressBytes, ParseAddressPort, Canonical, Serves;
    CanonicalIsWritten(p, d.address);
    assert Serves(p, FamilyOf(d.address));
    AddressPortRoundTrip(p, d.address, d.port, rest);
    var s := DestBytes(p, d).bytes + rest;
    assert s[1..] == AddressPortBytes(p, d.address, d.port).bytes + rest;
  }

  lemma DestAlone(p: Parser, d: Destination)
    requires Sound(p) && CanonicalDest(p, d)
    ensures DestOk(d) && ParseDest(p, DestBytes(p, d).bytes) == ReadOk(d, [])
  {
    DestRoundTrip(p, d, []);
    assert DestBytes(p, d).bytes + [] == DestBytes(p, d).bytes;
  }

  lemma InboundRoundTrip(p: Parser, i: Inbound)
    requires Sound(p) && OptDestOk(i.source) && OptDestOk(i.local)
    requires CanonicalIfSent(p, i.source) && CanonicalIfSent(p, i.local)
    ensures InboundBytes(p, i).ok
    ensures ParseInbound(p, InboundBytes(p, i).bytes) ==
            Some(if Sendable(i.source) then Inbound(i.source, Kept(i.local)) else Inbound(None, None))
    ensures |InboundBytes(p, i).bytes| <= 520
    ensures IPOnly(i) ==> |InboundBytes(p, i).bytes| <= 40
  {
    hide ParseDest, DestBytes, Canonical, Sound;
    if Sendable(i.source) {
      if Sendable(i.local) {
        DestRoundTrip(p, i.source.value, DestBytes(p, i.local.value).bytes);
        DestRoundTrip(p, i.local.value, []);
        DestAlone(p, i.local.value);
      } else {
        DestRoundTrip(p, i.source.value, []);
        DestAlone(p, i.source.value);
      }
    }
  }

  /** Source and local address, where sent, are IPs. */
  predicate IPOnly(i: Inbound) {
    && (Sendable(i.source) ==> !i.source.value.address.Domain?)
    && (Sendable(i.local) ==> !i.local.value.address.Domain?)
  }

  lemma NewRoundTrip(p: Parser, f: FrameMetadata, udp: Option<Destination>, reverse: bool)
    requires Sound(p) && f.status == NEW && Agreed(p, f, udp, reverse)
    ensures TailBytes(p, f, udp).ok
    ensures ParseBody(p, Header(f) + TailBytes(p, f, udp).bytes, reverse) == Some(Received(f, udp))
    ensures |TailBytes(p, f, udp).bytes| <= 780
    ensures f.inbound.None? || IPOnly(f.inbound.value) ==> |TailBytes(p, f, udp).bytes| <= 300
  {
    hide ParseDest, DestBytes, Canonical, Sound, ParseInbound, InboundBytes;
    var t := DestBytes(p, f.target.value).bytes;
    var rest := TailBytes(p, f, udp).bytes[|t|..];
    DestRoundTrip(p, f.target.value, rest);
    if f.inbound.Some? {
      InboundRoundTrip(p, f.inbound.value);
      assert rest == InboundBytes(p, f.inbound.value).bytes;
    } else {
      assert rest == if udp.Some? then f.globalID else [];
      assert udp.Some? ==> rest[..8] == f.globalID;
    }
    assert TailBytes(p, f, udp).bytes == t + rest;
    HeaderAt(f, t + rest);
  }

  lemma HeaderAt(f: FrameMetadata, tail: seq<Byte>)
    requires f.id < 65536
    ensures var b := Header(f) + tail;
            |b| >= 4 && Word(b[0], b[1]) == f.id && b[2] == f.status && b[3] == f.option && b[4..] == tail
  {
    Uint16RoundTrip(f.id);
  }

  lemma OldRoundTrip(p: Parser, f: FrameMetadata, udp: Option<Destination>, reverse: bool)
    requires Sound(p) && f.status != NEW && Agreed(p, f, udp, reverse)
    ensures TailBytes(p, f, udp).ok
    ensures ParseBody(p, Header(f) + TailBytes(p, f, udp).bytes, reverse) == Some(Received(f, udp))
    ensures |TailBytes(p, f, udp).bytes| <= 261
  {
    hide ParseDest, DestBytes, Canonical, Sound;
    HeaderAt(f, TailBytes(p, f, udp).bytes);
    if udp.Some? {
      var d := udp.value.(network := UDP);
      if f.status == KEEP {
        DestRoundTrip(p, d, []);
        DestAlone(p, d);
      }
      OldLength(p, d);
    }
  }

  lemma OldLength(p: Parser, d: Destination)
    requires DestOk(d)
    ensures |DestBytes(p, d).bytes| <= 261
  {
  }

  ghost function BodyLength(p: Parser, f: FrameMetadata, udp: Option<Destination>): nat
    requires MetaOk(f) && OptDestOk(udp)
  {
    4 + |TailBytes(p, f, udp).bytes|
  }

  lemma BodyRoundTrip(p: Parser, f: FrameMetadata, udp: Option<Destination>, reverse: bool)
    requires MetaOk(f) && OptDestOk(udp) && Sound(p) && Agreed(p, f, udp, reverse)
    ensures TailBytes(p, f, udp).ok
    ensures ParseBody(p, Header(f) + TailBytes(p, f, udp).bytes, reverse) == Some(Received(f, udp))
    ensures BodyLength(p, f, udp) <= 784
    ensures f.status != NEW || f.inbound.None? || IPOnly(f.inbound.value) ==> BodyLength(p, f, udp) <= 304
  {
    hide ParseBody, TailBytes, Header, Received, Agreed;
    if f.status == NEW {
      NewRoundTrip(p, f, udp, reverse);
    } else {
      OldRoundTrip(p, f, udp, reverse);
    }
  }

  /** Written metadata is read back, and the rest of the stream left alone, exactly up to the length limit. */
  lemma FrameRoundTrip(p: Parser, f: FrameMetadata, udp: Option<Destination>, reverse: bool, rest: seq<Byte>)
    requires MetaOk(f) && OptDestOk(udp) && Sound(p) && Agreed(p, f, udp, reverse)
    ensures MetaBytes(p, f, udp).ok
    ensures ParseMeta(p, MetaBytes(p, f, udp).bytes + rest, reverse) == ReadOk(Received(f, udp), rest) <==>
            BodyLength(p, f, udp) <= MAX_META
    ensures BodyLength(p, f, udp) > MAX_META ==> ParseMeta(p, MetaBytes(p, f, udp).bytes + rest, reverse) == ReadError
  {
    hide ParseBody, ParseMeta, MetaOk, OptDestOk, Sound, TailBytes, Header, Received, Agreed, PutUint16, MetaBytes;
    BodyRoundTrip(p, f, udp, reverse);
    var body := SizedBody(p, f, udp);
    ParseSized(p, body, rest, reverse);
  }

  lemma SizedBody(p: Parser, f: FrameMetadata, udp: Option<Destination>) returns (body: seq<Byte>)
    requires MetaOk(f) && OptDestOk(udp) && TailBytes(p, f, udp).ok && BodyLength(p, f, udp) < 65536
    ensures body == Header(f) + TailBytes(p, f, udp).bytes && |body| == BodyLength(p, f, udp)
    ensures MetaBytes(p, f, udp) == Written(true, PutUint16(|body|) + body)
  {
    body := Header(f) + TailBytes(p, f, udp).bytes;
    hide PutUint16, TailBytes, Header, Wrap;
  }

  lemma ParseSized(p: Parser, body: seq<Byte>, rest: seq<Byte>, reverse: bool)
    requires |body| < 65536
    ensures ParseMeta(p, PutUint16(|body|) + body + rest, reverse) ==
            var f := ParseBody(p, body, reverse);
            if |body| > MAX_META || f.None? then ReadError else ReadOk(f.value, rest)
  {
    hide PutUint16, Uint16, ParseBody;
    Uint16RoundTrip(|body|);
    var s := PutUint16(|body|) + body + rest;
    assert s[..2] == PutUint16(|body|);
    assert s[2..2 + |body|] == body;
    assert s[2 + |body|..] == rest;
  }

  /** Whatever its target, a frame whose source and local are IPs stays under the limit. */
  lemma FrameFits(p: Parser, f: FrameMetadata, udp: Option<Destination>, reverse: bool, rest: seq<Byte>)
    requires MetaOk(f) && OptDestOk(udp) && Sound(p) && Agreed(p, f, udp, reverse)
    requires f.status != NEW || f.inbound.None? || IPOnly(f.inbound.value)
    ensures MetaBytes(p, f, udp).ok && |MetaBytes(p, f, udp).bytes| <= 306
    ensures ParseMeta(p, MetaBytes(p, f, udp).bytes + rest, reverse) == ReadOk(Received(f, udp), rest)
  {
    hide ParseMeta, TailBytes, Received, Agreed;
    BodyRoundTrip(p, f, udp, reverse);
    FrameRoundTrip(p, f, udp, reverse, rest);
  }

  /** With long domains as source and local a frame can be written that no peer accepts. */
  lemma LongNamesRefused(p: Parser, d: Destination, rest: seq<Byte>)
    requires Sound(p) && CanonicalDest(p, d) && d.address.Domain? && |d.address.name| >= 166
    ensures DestOk(d) && OptDestOk(Some(d))
    ensures var f := FrameMetadata(1, NEW, 0, Some(d), NO_GLOBAL_ID, Some(Inbound(Some(d), Some(d))));
            MetaBytes(p, f, None).ok && ParseMeta(p, MetaBytes(p, f, None).bytes + rest, true) == ReadError
  {
    CanonicalIsWritten(p, d.address);
    var f := FrameMetadata(1, NEW, 0, Some(d), NO_GLOBAL_ID, Some(Inbound(Some(d), Some(d))));
    assert Agreed(p, f, None, true);
    assert |DestBytes(p, d).bytes| == 5 + |d.address.name|;
    hide ParseMeta, Received, Canonical, DestBytes, Sound;
    FrameRoundTrip(p, f, None, true, rest);
  }

  // ----- the code that moves the bytes -----

  method WriteDest(p: Parser, b: Buffer, d: Destination) returns (ok: bool)
    requires b.Valid() && DestOk(d) && b.end + 261 <= b.v.Length
    modifies b`end, b.v
    ensures b.Valid() && b.v == old(b.v) && b.end <= old(b.end) + 261
    ensures b.Bytes() == old(b.Bytes()) + DestBytes(p, d).bytes && ok == DestBytes(p, d).ok
  {
    hide AddressPortBytes;
    b.Append(NetworkByte(d.network));
    ok := WriteAddressPort(p, b, d.address, d.port);
  }

  method WriteInbound(p: Parser, b: Buffer, i: Inbound) returns (ok: bool)
    requires b.Valid() && OptDestOk(i.source) && OptDestOk(i.local) && b.end + 522 <= b.v.Length
    modifies b`end, b.v
    ensures b.Valid() && b.v == old(b.v) && b.end <= old(b.end) + 522
    ensures b.Bytes() == old(b.Bytes()) + InboundBytes(p, i).bytes && ok == InboundBytes(p, i).ok
  {
    hide DestBytes;
    ok := true;
    if i.source.Some? && i.source.value.network != Other {
      ok := WriteDest(p, b, i.source.value);
      if ok && i.local.Some? && i.local.value.network != Other {
        ok := WriteDest(p, b, i.local.value);
      }
    }
  }

  method WriteTail(p: Parser, b: Buffer, f: FrameMetadata, udp: Option<Destination>) returns (ok: bool)
    requires b.Valid() && MetaOk(f) && OptDestOk(udp) && b.end + 783 <= b.v.Length
    modifies b`end, b.v
    ensures b.Valid() && b.v == old(b.v) && b.end <= old(b.end) + 783
    ensures b.Bytes() == old(b.Bytes()) + TailBytes(p, f, udp).bytes && ok == TailBytes(p, f, udp).ok
  {
    hide DestBytes, InboundBytes;
    ok := true;
    if f.status == NEW {
      ok := WriteDest(p, b, f.target.value);
      if !ok {
        return;
      }
      if f.inbound.Some? {
        ok := WriteInbound(p, b, f.inbound.value);
      } else if udp.Some? {
        b.Append(f.globalID);
      }
    } else if udp.Some? {
      var _ := WriteDest(p, b, udp.value.(network := UDP));
    }
  }

  method WriteHeader(b: Buffer, f: FrameMetadata)
    requires b.Valid() && f.id < 65536 && b.Bytes() == [] && b.end + 6 <= b.v.Length
    modifies b`end, b.v
    ensures b.Valid() && b.v == old(b.v) && b.end == old(b.end) + 6
    ensures b.Bytes() == Zeros(2) + Header(f)
  {
    b.Extend(2);
    b.Append(PutUint16(f.id));
    b.Append([f.status]);
    b.Append([f.option]);
  }

  /** Reserves the length field, writes the rest behind it and patches the length in. */
  method WriteTo(p: Parser, b: Buffer, f: FrameMetadata, udp: Option<Destination>) returns (ok: bool)
    requires b.Valid() && MetaOk(f) && OptDestOk(udp) && b.Bytes() == [] && b.end + 789 <= b.v.Length
    modifies b`end, b.v
    ensures b.Valid() && b.v == old(b.v) && b.end <= old(b.end) + 789
    ensures ok == MetaBytes(p, f, udp).ok
    ensures ok ==> b.Bytes() == MetaBytes(p, f, udp).bytes
  {
    hide TailBytes;
    WriteHeader(b, f);
    hide Header;
    ghost var t := TailBytes(p, f, udp);
    ok := WriteTail(p, b, f, udp);
    ghost var body := Header(f) + t.bytes;
    assert b.Bytes() == Zeros(2) + body;
    if !ok {
      return;
    }
    var n := b.end - b.start - 2;
    assert n == |body|;
    b.Patch(PutUint16(Wrap(n)));
    assert b.Bytes() == PutUint16(Wrap(n)) + body;
  }

  method ReadDest(p: Parser, b: Buffer) returns (d: Option<Destination>)
    requires b.Valid() && b.Bytes() != []
    modifies b`start
    ensures b.Valid()
    ensures d.None? <==> ParseDest(p, old(b.Bytes())).ReadError?
    ensures d.Some? ==> ParseDest(p, old(b.Bytes())) == ReadOk(d.value, b.Bytes())
  {
    hide ParseAddressPort;
    var network := b.v[b.start];
    b.Advance(1);
    var a := ReadAddressPort(p, b);
    if a.None? {
      return None;
    }
    d := if network == 1 then Some(Destination(TCP, a.value.address, a.value.port))
         else if network == 2 then Some(Destination(UDP, a.value.address, a.value.port))
         else None;
  }

  method ReadInbound(p: Parser, b: Buffer) returns (i: Option<Inbound>)
    requires b.Valid()
    modifies b`start
    ensures b.Valid()
    ensures i == ParseInbound(p, old(b.Bytes()))
  {
    hide ParseDest;
    if b.start == b.end || b.v[b.start] == 0 {
      return Some(Inbound(None, None));
    }
    var source := ReadDest(p, b);
    if source.None? {
      return None;
    }
    if b.start == b.end || b.v[b.start] == 0 {
      return Some(Inbound(source, None));
    }
    var local := ReadDest(p, b);
    i := if local.None? then None else Some(Inbound(source, local));
  }

  method UnmarshalFromBuffer(p: Parser, b: Buffer, reverse: bool) returns (r: Option<FrameMetadata>)
    requires b.Valid()
    modifies b`start
    ensures r == ParseBody(p, old(b.Bytes()), reverse)
  {
    hide ParseDest, ParseInbound;
    ghost var s := b.Bytes();
    if b.end - b.start < 4 {
      return None;
    }
    var status, option := b.v[b.start + 2], b.v[b.start + 3];
    var f := FrameMetadata(Word(b.v[b.start], b.v[b.start + 1]), status, option, None, NO_GLOBAL_ID, None);
    if !(status == NEW || (status == KEEP && b.end - b.start > 4 && b.v[b.start + 4] == 2)) {
      assert !HasTarget(s);
      return Some(f);
    }
    if b.end - b.start < 8 {
      return None;
    }
    b.Advance(4);
    var target := ReadDest(p, b);
    if target.None? {
      return None;
    }
    f := f.(target := target);
    if status != NEW {
      return Some(f);
    }
    if reverse {
      var i := ReadInbound(p, b);
      return if i.None? then None else Some(f.(inbound := i));
    }
    if option % 2 == 1 && target.value.network == UDP && b.end - b.start >= 8 {
      f := f.(globalID := b.Bytes()[..8]);
    }
    r := Some(f);
  }
}
