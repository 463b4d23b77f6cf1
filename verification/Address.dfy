/** Addresses and ports on the wire. */
module Addresses {
  import opened Bytes
  import opened Buf

  datatype Family = V4 | V6 | Name

  datatype Address = IPv4(ip: seq<Byte>) | IPv6(ip: seq<Byte>) | Domain(name: seq<Byte>)

  type IP = a: Address | IsIP(a) witness IPv4([0, 0, 0, 0])

  predicate IsIP(a: Address) {
    (a.IPv4? && |a.ip| == 4) || (a.IPv6? && |a.ip| == 16)
  }

  predicate WellFormed(a: Address) {
    a.Domain? || IsIP(a)
  }

  function FamilyOf(a: Address): Family {
    match a case IPv4(_) => V4 case IPv6(_) => V6 case Domain(_) => Name
  }

  /** An IPv4 address inside an IPv6 one. */
  predicate Mapped(ip: seq<Byte>) {
    |ip| == 16 && (forall i | 0 <= i < 10 :: ip[i] == 0) && ip[10] == 255 && ip[11] == 255
  }

  /** net.IPAddress on 4 or 16 bytes. */
  function IPAddress(ip: seq<Byte>): IP
    requires |ip| == 4 || |ip| == 16
  {
    if |ip| == 4 then IPv4(ip) else if Mapped(ip) then IPv4(ip[12..]) else IPv6(ip)
  }

  /**
   * One configured parser: type bytes to families and back, the order of port and address, and
   * `parseIP`, what net.ParseAddress makes of a text when it is an IP.
   */
  datatype Parser = Parser(typeMap: map<Byte, Family>,
                           byteMap: map<Family, Byte>,
                           portFirst: bool,
                           typeParser: Byte -> Byte,
                           parseIP: seq<Byte> -> Option<IP>)

  predicate DomainByte(c: Byte) {
    (48 <= c <= 57) || (97 <= c <= 122) || (65 <= c <= 90) || c == 45 || c == 46 || c == 95
  }

  predicate ValidDomain(d: seq<Byte>) {
    forall i | 0 <= i < |d| :: DomainByte(d[i])
  }

  predicate MaybeIPPrefix(b: Byte) {
    b == 91 || 48 <= b <= 57
  }

  method IsValidDomain(d: seq<Byte>) returns (ok: bool)
    ensures ok <==> ValidDomain(d)
  {
    for i := 0 to |d|
      invariant ValidDomain(d[..i])
    {
      var c := d[i];
      if !((c >= 48 && c <= 57) || (c >= 97 && c <= 122) || (c >= 65 && c <= 90) || c == 45 || c == 46 || c == 95) {
        return false;
      }
    }
    assert d[..|d|] == d;
    ok := true;
  }

  // ----- what is written -----

  /** The bytes that reach the writer, also when the address is then refused. */
  datatype Written = Written(ok: bool, bytes: seq<Byte>)

  function AddressBytes(p: Parser, a: Address): Written {
    if FamilyOf(a) !in p.byteMap then Written(false, [])
    else if !a.Domain? then Written(true, [p.byteMap[FamilyOf(a)]] + a.ip)
    else if |a.name| > 256 then Written(false, [])
    else Written(true, [p.byteMap[Name], |a.name| % 256] + a.name)
  }

  function AddressPortBytes(p: Parser, a: Address, port: nat): Written
    requires port < 65536
  {
    var w := AddressBytes(p, a);
    if p.portFirst then Written(w.ok, PutUint16(port) + w.bytes)
    else if w.ok then Written(true, w.bytes + PutUint16(port))
    else w
  }

  // ----- what is read -----

  datatype Read<T> = ReadError | ReadOk(value: T, rest: seq<Byte>)

  datatype AddressPort = AddressPort(address: Address, port: nat)

  /** A name as received: an IP in text form, a domain, or nothing acceptable. */
  function NameAddress(p: Parser, d: seq<Byte>): Option<Address>
    requires d != []
  {
    if MaybeIPPrefix(d[0]) && p.parseIP(d).Some? then Some(p.parseIP(d).value)
    else if ValidDomain(d) then Some(Domain(d))
    else None
  }

  /**
   * Reads an address from `s`; `held` is what the scratch buffer already holds. A zero length makes
   * the name the whole scratch buffer.
   */
  function ParseAddress(p: Parser, held: seq<Byte>, s: seq<Byte>): (r: Read<Address>)
    ensures r.ReadOk? ==> |r.rest| < |s| && WellFormed(r.value)
  {
    if |s| < 1 || p.typeParser(s[0]) >= 16 || p.typeParser(s[0]) !in p.typeMap then ReadError
    else
      match p.typeMap[p.typeParser(s[0])]
      case V4 => if |s| < 5 then ReadError else ReadOk(IPAddress(s[1..5]), s[5..])
      case V6 => if |s| < 17 then ReadError else ReadOk(IPAddress(s[1..17]), s[17..])
      case Name =>
        if |s| < 2 || |s| < 2 + s[1] as int then ReadError
        else
          var n := s[1] as int;
          var a := NameAddress(p, if n == 0 then held + s[..2] else s[2..2 + n]);
          if a.None? then ReadError else ReadOk(a.value, s[2 + n..])
  }

  function ParsePort(s: seq<Byte>): Read<nat> {
    if |s| < 2 then ReadError else ReadOk(Uint16(s[..2]), s[2..])
  }

  function ParseAddressPort(p: Parser, s: seq<Byte>): (r: Read<AddressPort>)
    ensures r.ReadOk? ==> |r.rest| < |s| && WellFormed(r.value.address) && r.value.port < 65536
  {
    if p.portFirst then
      match ParsePort(s)
      case ReadError => ReadError
      case ReadOk(port, rest) =>
        match ParseAddress(p, s[..2], rest)
        case ReadError => ReadError
        case ReadOk(a, rest') => ReadOk(AddressPort(a, port), rest')
    else
      match ParseAddress(p, [], s)
      case ReadError => ReadError
      case ReadOk(a, rest) =>
        match ParsePort(rest)
        case ReadError => ReadError
        case ReadOk(port, rest') => ReadOk(AddressPort(a, port), rest')
  }

  // ----- the round trip -----

  /** The family's byte is read back as the family. */
  predicate Serves(p: Parser, f: Family) {
    f in p.byteMap && p.typeParser(p.byteMap[f]) < 16 &&
    p.typeParser(p.byteMap[f]) in p.typeMap && p.typeMap[p.typeParser(p.byteMap[f])] == f
  }

  /** An address that means the same at both ends. */
  predicate Canonical(p: Parser, a: Address) {
    match a
    case IPv4(ip) => |ip| == 4
    case IPv6(ip) => |ip| == 16 && !Mapped(ip)
    case Domain(d) => 1 <= |d| <= 255 && ValidDomain(d) && !(MaybeIPPrefix(d[0]) && p.parseIP(d).Some?)
  }

  lemma AddressRoundTrip(p: Parser, a: Address, held: seq<Byte>, rest: seq<Byte>)
    requires Serves(p, FamilyOf(a)) && WellFormed(a) && AddressBytes(p, a).ok
    ensures Canonical(p, a) ==> ParseAddress(p, held, AddressBytes(p, a).bytes + rest) == ReadOk(a, rest)
    ensures !Canonical(p, a) && |held| < 254 ==>
              var r := ParseAddress(p, held, AddressBytes(p, a).bytes + rest);
              r.ReadOk? ==> r.value != a
  {
    var w := AddressBytes(p, a).bytes;
    var s := w + rest;
    match a
    case IPv4(ip) =>
      assert s[1..5] == ip && s[5..] == rest;
    case IPv6(ip) =>
      assert s[1..17] == ip && s[17..] == rest;
    case Domain(d) =>
      if 1 <= |d| <= 255 {
        assert s[1] == |d| && s[2..2 + |d|] == d && s[2 + |d|..] == rest;
      } else {
        assert s[1] == 0;
        assert |held| < 254 ==> 0 < |held + s[..2]| < 256;
      }
  }

  /** Exactly the canonical addresses come back, with the port and with the bytes behind untouched. */
  lemma AddressPortRoundTrip(p: Parser, a: Address, port: nat, rest: seq<Byte>)
    requires port < 65536 && Serves(p, FamilyOf(a)) && WellFormed(a) && AddressPortBytes(p, a, port).ok
    ensures ParseAddressPort(p, AddressPortBytes(p, a, port).bytes + rest) == ReadOk(AddressPort(a, port), rest)
            <==> Canonical(p, a)
  {
    hide ParseAddress, AddressBytes, Canonical, Serves, PutUint16;
    var w := AddressBytes(p, a).bytes;
    var two := PutUint16(port);
    if p.portFirst {
      PortAt(port, w + rest);
      assert two + w + rest == two + (w + rest);
      AddressRoundTrip(p, a, two, rest);
    } else {
      PortAt(port, rest);
      assert w + two + rest == w + (two + rest);
      AddressRoundTrip(p, a, [], two + rest);
    }
  }

  lemma PortAt(port: nat, rest: seq<Byte>)
    requires port < 65536
    ensures ParsePort(PutUint16(port) + rest) == ReadOk(port, rest)
    ensures (PutUint16(port) + rest)[..2] == PutUint16(port)
  {
    Uint16RoundTrip(port);
    hide PutUint16, Uint16;
    assert (PutUint16(port) + rest)[..2] == PutUint16(port) && (PutUint16(port) + rest)[2..] == rest;
  }

  // ----- the code that moves the bytes -----

  method ReadPort(b: Buffer) returns (port: Option<nat>, scratch: seq<Byte>)
    requires b.Valid()
    modifies b`start
    ensures b.Valid()
    ensures port.None? <==> ParsePort(old(b.Bytes())).ReadError?
    ensures port.Some? ==> ParsePort(old(b.Bytes())) == ReadOk(port.value, b.Bytes())
    ensures port.Some? ==> scratch == old(b.Bytes())[..2]
  {
    var two := b.ReadFull(2);
    if two.None? {
      return None, [];
    }
    port, scratch := Some(Uint16(two.value)), two.value;
  }

  lemma NameAt(held: seq<Byte>, s: seq<Byte>, n: nat)
    requires |s| >= 2 + n
    ensures held + s[..1] + s[1..][..1] == held + s[..2]
    ensures s[1..][1..1 + n] == s[2..2 + n] && s[1..][1 + n..] == s[2 + n..]
  {
  }

  method ReadAddress(p: Parser, held: seq<Byte>, b: Buffer) returns (a: Option<Address>)
    requires b.Valid()
    modifies b`start
    ensures b.Valid()
    ensures a.None? <==> ParseAddress(p, held, old(b.Bytes())).ReadError?
    ensures a.Some? ==> ParseAddress(p, held, old(b.Bytes())) == ReadOk(a.value, b.Bytes())
  {
    hide NameAddress, IPAddress;
    ghost var s := b.Bytes();
    var scratch := held;
    var one := b.ReadFull(1);
    if one.None? {
      return None;
    }
    assert one.value[0] == s[0];
    scratch := scratch + one.value;
    var addrType := p.typeParser(one.value[0]);
    if addrType >= 16 || addrType !in p.typeMap {
      return None;
    }
    match p.typeMap[addrType]
    case V4 =>
      var ip := b.ReadFull(4);
      assert ip.Some? ==> ip.value == s[1..5] && b.Bytes() == s[5..];
      a := if ip.None? then None else Some(IPAddress(ip.value));
    case V6 =>
      var ip := b.ReadFull(16);
      assert ip.Some? ==> ip.value == s[1..17] && b.Bytes() == s[17..];
      a := if ip.None? then None else Some(IPAddress(ip.value));
    case Name =>
      assert s[1..] == b.Bytes() && scratch == held + s[..1];
      if |s| >= 2 && |s| >= 2 + s[1] as int {
        NameAt(held, s, s[1] as int);
      }
      a := ReadName(p, scratch, b);
  }

  /** The length byte and the name. */
  method ReadName(p: Parser, held: seq<Byte>, b: Buffer) returns (a: Option<Address>)
    requires b.Valid()
    modifies b`start
    ensures b.Valid()
    ensures var s := old(b.Bytes());
            if |s| < 1 || |s| < 1 + s[0] as int then a.None?
            else
              var n := s[0] as int;
              a == NameAddress(p, if n == 0 then held + s[..1] else s[1..1 + n]) && b.Bytes() == s[1 + n..]
  {
    ghost var s := b.Bytes();
    var one := b.ReadFull(1);
    if one.None? {
      return None;
    }
    var n := one.value[0];
    var name := b.ReadFull(n);
    if name.None? {
      return None;
    }
    assert one.value == s[..1];
    assert s[1..][..n] == s[1..1 + n as int] && s[1..][n..] == s[1 + n as int..];
    var domain := if n == 0 then held + one.value else name.value;
    if MaybeIPPrefix(domain[0]) {
      var ip := p.parseIP(domain);
      if ip.Some? {
        return Some(ip.value);
      }
    }
    var valid := IsValidDomain(domain);
    a := if valid then Some(Domain(domain)) else None;
  }

  method ReadAddressPort(p: Parser, b: Buffer) returns (r: Option<AddressPort>)
    requires b.Valid()
    modifies b`start
    ensures b.Valid()
    ensures r.None? <==> ParseAddressPort(p, old(b.Bytes())).ReadError?
    ensures r.Some? ==> ParseAddressPort(p, old(b.Bytes())) == ReadOk(r.value, b.Bytes())
  {
    hide ParseAddress;
    if p.portFirst {
      var port, scratch := ReadPort(b);
      if port.None? {
        return None;
      }
      var a := ReadAddress(p, scratch, b);
      r := if a.None? then None else Some(AddressPort(a.value, port.value));
    } else {
      var a := ReadAddress(p, [], b);
      if a.None? {
        return None;
      }
      var port, _ := ReadPort(b);
      r := if port.None? then None else Some(AddressPort(a.value, port.value));
    }
  }

  method WriteAddress(p: Parser, b: Buffer, a: Address) returns (ok: bool)
    requires b.Valid() && WellFormed(a) && b.end + 258 <= b.v.Length
    modifies b`end, b.v
    ensures b.Valid() && b.v == old(b.v)
    ensures b.Bytes() == old(b.Bytes()) + AddressBytes(p, a).bytes && ok == AddressBytes(p, a).ok
    ensures b.end <= old(b.end) + 258
  {
    if FamilyOf(a) !in p.byteMap {
      return false;
    }
    var tb := p.byteMap[FamilyOf(a)];
    ok := true;
    if !a.Domain? {
      b.Append([tb]);
      b.Append(a.ip);
    } else if |a.name| > 256 {
      ok := false;
    } else {
      b.Append([tb, |a.name| % 256]);
      b.Append(a.name);
    }
  }

  method WriteAddressPort(p: Parser, b: Buffer, a: Address, port: nat) returns (ok: bool)
    requires b.Valid() && WellFormed(a) && port < 65536 && b.end + 260 <= b.v.Length
    modifies b`end, b.v
    ensures b.Valid() && b.v == old(b.v)
    ensures b.Bytes() == old(b.Bytes()) + AddressPortBytes(p, a, port).bytes && ok == AddressPortBytes(p, a, port).ok
    ensures b.end <= old(b.end) + 260
  {
    if p.portFirst {
      b.Append(PutUint16(port));
      ok := WriteAddress(p, b, a);
    } else {
      ok := WriteAddress(p, b, a);
      if ok {
        b.Append(PutUint16(port));
      }
    }
  }
}
