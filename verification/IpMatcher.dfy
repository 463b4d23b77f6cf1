/** The heuristic IP matcher: one lookup per /24 or /64 bucket, with the answers of a lookup per IP. */
module IpMatcher {
  import opened Bytes

  type IP = seq<Byte>     // net.IP: any byte slice
  type Key = seq<Byte>    // the nine bytes of prefixKeyFromIP

  datatype Family = F4 | F6

  /** netip.Addr: a family and its 4 or 16 bytes. */
  datatype Addr = Addr(family: Family, bytes: seq<Byte>)

  const MAPPED: seq<Byte> := [0, 0, 0, 0, 0, 0, 0, 0, 0, 0, 0xff, 0xff]

  /** netipx.FromStdIP: 4 bytes, or 16 with IPv4-mapped addresses unmapped. */
  function FromStdIP(ip: IP): Option<Addr> {
    if |ip| == 4 then Some(Addr(F4, ip))
    else if |ip| == 16 then Some(if ip[..12] == MAPPED then Addr(F4, ip[12..]) else Addr(F6, ip))
    else None
  }

  /** ip.To4 */
  function To4(ip: IP): Option<seq<Byte>> {
    if |ip| == 4 then Some(ip)
    else if |ip| == 16 && ip[..12] == MAPPED then Some(ip[12..])
    else None
  }

  function PrefixKey(ip: IP): Option<Key> {
    if To4(ip).Some? then Some([4] + To4(ip).value[..3] + [0, 0, 0, 0, 0])
    else if |ip| == 16 then Some([6] + ip[..8])
    else None
  }

  function FamilyOf(k: Key): Family {
    if k != [] && k[0] == 4 then F4 else F6
  }

  // ---------------------------------------------------------------- prefixes

  /** A CIDR prefix (section 3.1 of RFC 4632). */
  datatype Prefix = Prefix(bytes: seq<Byte>, bits: nat)

  function Bit(bs: seq<Byte>, i: nat): nat
    requires i < 8 * |bs|
  {
    BitOf(bs[i / 8], i % 8)
  }

  /** Bit j of a byte, the highest first. */
  function BitOf(b: Byte, j: nat): nat
    requires j < 8
  {
    b as int / Pow2(7 - j) % 2
  }

  function Pow2(n: nat): (p: nat)
    ensures p > 0
  {
    if n == 0 then 1 else 2 * Pow2(n - 1)
  }

  ghost predicate Covers(p: Prefix, a: seq<Byte>) {
    |p.bytes| == |a| && p.bits <= 8 * |a| && forall i :: 0 <= i < p.bits ==> Bit(p.bytes, i) == Bit(a, i)
  }

  ghost predicate Contains(ps: seq<Prefix>, a: seq<Byte>) {
    exists i :: 0 <= i < |ps| && Covers(ps[i], a)
  }

  /** The n highest bits of a byte. */
  function Top(b: Byte, n: nat): int
    requires n <= 8
  {
    b as int / Pow2(8 - n)
  }

  lemma TopStep(b: Byte, n: nat)
    requires n < 8
    ensures Top(b, 0) == 0 && Top(b, 8) == b as int && Top(b, n + 1) == 2 * Top(b, n) + BitOf(b, n)
  {
    assert Pow2(0) == 1 && Pow2(1) == 2 && Pow2(2) == 4 && Pow2(3) == 8 && Pow2(4) == 16;
    assert Pow2(5) == 2 * Pow2(4) && Pow2(6) == 2 * Pow2(5) && Pow2(7) == 2 * Pow2(6) && Pow2(8) == 2 * Pow2(7);
    hide Pow2;
    assert n == 0 || n == 1 || n == 2 || n == 3 || n == 4 || n == 5 || n == 6 || n == 7;
  }

  /** Bit by bit from the top is the same as all at once. */
  lemma {:induction false} TopBits(x: Byte, y: Byte, n: nat)
    requires n <= 8
    ensures (forall j :: 0 <= j < n ==> BitOf(x, j) == BitOf(y, j)) <==> Top(x, n) == Top(y, n)
  {
    hide Top;
    TopStep(x, 0);
    TopStep(y, 0);
    if n > 0 {
      TopBits(x, y, n - 1);
      TopStep(x, n - 1);
      TopStep(y, n - 1);
      BitIsBit(x, n - 1);
      BitIsBit(y, n - 1);
      hide BitOf;
    }
  }

  lemma BitIsBit(b: Byte, j: nat)
    requires j < 8
    ensures BitOf(b, j) <= 1
  {
  }

  lemma BitAt(a: seq<Byte>, q: nat, j: nat)
    requires q < |a| && j < 8
    ensures Bit(a, 8 * q + j) == BitOf(a[q], j)
  {
    assert (8 * q + j) / 8 == q && (8 * q + j) % 8 == j;
  }

  lemma BitsOfByte(a: seq<Byte>, b: seq<Byte>, q: nat, n: nat)
    requires |a| == |b| && q < |a| && n <= 8
    ensures (forall i :: 8 * q <= i < 8 * q + n ==> Bit(a, i) == Bit(b, i)) <==> Top(a[q], n) == Top(b[q], n)
  {
    hide Bit, Top, BitOf;
    TopBits(a[q], b[q], n);
    if forall i :: 8 * q <= i < 8 * q + n ==> Bit(a, i) == Bit(b, i) {
      forall j | 0 <= j < n
        ensures BitOf(a[q], j) == BitOf(b[q], j)
      {
        BitAt(a, q, j);
        BitAt(b, q, j);
      }
    }
    if Top(a[q], n) == Top(b[q], n) {
      forall i | 8 * q <= i < 8 * q + n
        ensures Bit(a, i) == Bit(b, i)
      {
        BitAt(a, q, i - 8 * q);
        BitAt(b, q, i - 8 * q);
      }
    }
  }

  /** A prefix covers exactly the addresses of its family that share its whole leading bytes and the leading
      bits of the byte behind them. */
  lemma CoversByBytes(p: Prefix, a: seq<Byte>)
    ensures var q, n := p.bits / 8, p.bits % 8;
            Covers(p, a) <==>
            && |p.bytes| == |a| && p.bits <= 8 * |a| && p.bytes[..q] == a[..q]
            && (n > 0 ==> Top(p.bytes[q], n) == Top(a[q], n))
  {
    var q, n := p.bits / 8, p.bits % 8;
    if |p.bytes| == |a| && p.bits <= 8 * |a| {
      WholeBytes(p.bytes, a, q);
      if n > 0 {
        BitsOfByte(p.bytes, a, q, n);
      }
      hide Bit, Top;
      assert Covers(p, a) <==> (forall i :: 0 <= i < 8 * q ==> Bit(p.bytes, i) == Bit(a, i)) &&
                               (forall i :: 8 * q <= i < 8 * q + n ==> Bit(p.bytes, i) == Bit(a, i));
    }
  }

  lemma {:induction false} WholeBytes(a: seq<Byte>, b: seq<Byte>, q: nat)
    requires |a| == |b| && q <= |a|
    ensures (forall i :: 0 <= i < 8 * q ==> Bit(a, i) == Bit(b, i)) <==> a[..q] == b[..q]
  {
    if q > 0 {
      WholeBytes(a, b, q - 1);
      BitsOfByte(a, b, q - 1, 8);
      hide Bit, Top;
      TopStep(a[q - 1], 0);
      TopStep(b[q - 1], 0);
      assert a[..q] == a[..q - 1] + [a[q - 1]] && b[..q] == b[..q - 1] + [b[q - 1]];
    }
  }

  /** A prefix no longer than the shared leading bytes covers both addresses or neither. */
  lemma CoversSame(p: Prefix, a: seq<Byte>, b: seq<Byte>, n: nat)
    requires |a| == |b| && n <= |a| && a[..n] == b[..n] && p.bits <= 8 * n
    ensures Covers(p, a) <==> Covers(p, b)
  {
    forall i | 0 <= i < p.bits && |p.bytes| == |a|
      ensures Bit(a, i) == Bit(b, i)
    {
      assert a[..n][i / 8] == b[..n][i / 8];
    }
  }

  datatype IPSet = IPSet(v4: seq<Prefix>, v6: seq<Prefix>, max4: nat, max6: nat)

  function Prefixes(s: IPSet, f: Family): seq<Prefix> {
    match f case F4 => s.v4 case F6 => s.v6
  }

  function MaxBits(s: IPSet, f: Family): nat {
    match f case F4 => s.max4 case F6 => s.max6
  }

  function Limit(f: Family): nat {
    match f case F4 => 24 case F6 => 64
  }

  /** What createFrom records: 0xff without prefixes, 0xfe when all have length 0, else the longest. */
  ghost predicate Recorded(ps: seq<Prefix>, max: nat) {
    && (ps == [] <==> max == 0xff)
    && (max == 0xfe <==> ps != [] && forall i :: 0 <= i < |ps| ==> ps[i].bits == 0)
    && (max < 0xfe ==> (exists i :: 0 <= i < |ps| && ps[i].bits == max) && forall i :: 0 <= i < |ps| ==> ps[i].bits <= max)
  }

  ghost predicate ValidSet(s: IPSet) {
    Recorded(s.v4, s.max4) && Recorded(s.v6, s.max6)
  }

  method MaxPrefix(ps: seq<Prefix>) returns (max: nat)
    requires forall i :: 0 <= i < |ps| ==> ps[i].bits <= 128
    ensures Recorded(ps, max)
  {
    var has := false;
    max := 0;
    for i := 0 to |ps|
      invariant has <==> i > 0
      invariant max <= 128 && forall j :: 0 <= j < i ==> ps[j].bits <= max
      invariant max > 0 ==> exists j :: 0 <= j < i && ps[j].bits == max
    {
      has := true;
      if ps[i].bits > max {
        max := ps[i].bits;
      }
    }
    if !has {
      max := 0xff;
    } else if max == 0 {
      max := 0xfe;
      assert ps[0].bits == 0;
    }
  }

  method CreateFrom(v4: seq<Prefix>, v6: seq<Prefix>) returns (s: IPSet)
    requires forall i :: 0 <= i < |v4| ==> v4[i].bits <= 32
    requires forall i :: 0 <= i < |v6| ==> v6[i].bits <= 128
    ensures ValidSet(s) && s.v4 == v4 && s.v6 == v6
  {
    var max4 := MaxPrefix(v4);
    var max6 := MaxPrefix(v6);
    s := IPSet(v4, v6, max4, max6);
  }

  // ---------------------------------------------------------------- one matcher, one IP

  datatype Matcher = Matcher(ipset: IPSet, reverse: bool)

  ghost predicate MatchAddr(m: Matcher, a: Addr) {
    MaxBits(m.ipset, a.family) != 0xff && Contains(Prefixes(m.ipset, a.family), a.bytes) != m.reverse
  }

  /** Match: an invalid IP matches nothing. */
  ghost predicate Match(m: Matcher, ip: IP) {
    FromStdIP(ip).Some? && MatchAddr(m, FromStdIP(ip).value)
  }

  /** What a matcher means: nothing matches in a family without prefixes; in a family that has some, a plain
      matcher matches what one of them covers and a reversed one everything else. */
  lemma MatchExactly(m: Matcher, ip: IP)
    requires ValidSet(m.ipset)
    ensures FromStdIP(ip).None? ==> !Match(m, ip)
    ensures FromStdIP(ip).Some? ==>
              var a := FromStdIP(ip).value;
              var ps := if a.family == F4 then m.ipset.v4 else m.ipset.v6;
              && (ps == [] ==> !Match(m, ip))
              && (ps != [] && !m.reverse ==> (Match(m, ip) <==> exists i :: 0 <= i < |ps| && Covers(ps[i], a.bytes)))
              && (ps != [] && m.reverse ==> (Match(m, ip) <==> forall i :: 0 <= i < |ps| ==> !Covers(ps[i], a.bytes)))
  {
  }

  /** Four bytes and the same four in sixteen are one address; other sixteen bytes are IPv6. */
  lemma MappedAlike(m: Matcher, ip: IP)
    requires |ip| == 4
    ensures FromStdIP(ip) == Some(Addr(F4, ip))
    ensures Match(m, [0, 0, 0, 0, 0, 0, 0, 0, 0, 0, 0xff, 0xff] + ip) <==> Match(m, ip)
  {
    var long := MAPPED + ip;
    assert long[..12] == MAPPED && long[12..] == ip;
  }

  /** Reversing turns the answer round exactly in the families with prefixes. */
  lemma ReverseExactly(s: IPSet, ip: IP)
    requires ValidSet(s) && FromStdIP(ip).Some?
    ensures (Match(Matcher(s, true), ip) <==> !Match(Matcher(s, false), ip)) <==>
            Prefixes(s, FromStdIP(ip).value.family) != []
  {
  }

  /** The matcher answers per bucket in this family. */
  predicate Heuristic(m: Matcher, f: Family) {
    MaxBits(m.ipset, f) <= Limit(f)
  }

  lemma KeyFacts(ip: IP)
    ensures PrefixKey(ip).Some? <==> FromStdIP(ip).Some?
    ensures PrefixKey(ip).Some? ==> FamilyOf(PrefixKey(ip).value) == FromStdIP(ip).value.family
  {
  }

  /** The key holds the leading bytes of the address. */
  lemma KeyHolds(ip: IP)
    requires FromStdIP(ip).Some?
    ensures var a := FromStdIP(ip).value;
            var n := if a.family == F4 then 3 else 8;
            && |a.bytes| == (if a.family == F4 then 4 else 16)
            && PrefixKey(ip).Some? && |PrefixKey(ip).value| == 9 && a.bytes[..n] == PrefixKey(ip).value[1..n + 1]
  {
  }

  /** Membership is constant on a bucket: IPs with one key match a heuristic matcher alike. */
  lemma BucketConstant(m: Matcher, x: IP, y: IP)
    requires ValidSet(m.ipset) && PrefixKey(x).Some? && PrefixKey(x) == PrefixKey(y)
    requires Heuristic(m, FamilyOf(PrefixKey(x).value))
    ensures Match(m, x) <==> Match(m, y)
  {
    KeyFacts(x);
    KeyFacts(y);
    KeyHolds(x);
    KeyHolds(y);
    hide PrefixKey, FromStdIP, Covers, FamilyOf;
    var a, b := FromStdIP(x).value, FromStdIP(y).value;
    var n := if a.family == F4 then 3 else 8;
    var ps := Prefixes(m.ipset, a.family);
    forall i | 0 <= i < |ps|
      ensures Covers(ps[i], a.bytes) <==> Covers(ps[i], b.bytes)
    {
      CoversSame(ps[i], a.bytes, b.bytes, n);
    }
  }

  /** The compiled lookup: netipx decides membership. */
  method Lookup(m: Matcher, a: Addr) returns (r: bool)
    ensures var ps := Prefixes(m.ipset, a.family);
            if MaxBits(m.ipset, a.family) == 0xff then !r
            else if m.reverse then r <==> !Contains(ps, a.bytes)
            else r <==> Contains(ps, a.bytes)
    ensures r == MatchAddr(m, a)
  {
    var ps := Prefixes(m.ipset, a.family);
    if MaxBits(m.ipset, a.family) == 0xff {
      return false;
    }
    var found := false;
    for i := 0 to |ps|
      invariant found <==> exists j :: 0 <= j < i && Covers(ps[j], a.bytes)
    {
      var c := CoversBits(ps[i], a.bytes);
      found := found || c;
    }
    return found != m.reverse;
  }

  method CoversBits(p: Prefix, a: seq<Byte>) returns (r: bool)
    ensures r == Covers(p, a)
  {
    if |p.bytes| != |a| || p.bits > 8 * |a| {
      return false;
    }
    for i := 0 to p.bits
      invariant forall j :: 0 <= j < i ==> Bit(p.bytes, j) == Bit(a, j)
    {
      if Bit(p.bytes, i) != Bit(a, i) {
        return false;
      }
    }
    return true;
  }

  // ---------------------------------------------------------------- one matcher, many IPs

  ghost predicate SomeMatch(m: Matcher, ips: seq<IP>) {
    exists i :: 0 <= i < |ips| && Match(m, ips[i])
  }

  ghost predicate AllMatch(m: Matcher, ips: seq<IP>) {
    ips != [] && forall i :: 0 <= i < |ips| ==> Match(m, ips[i])
  }

  /** Every IP before i that was looked up failed, and its key was remembered. */
  ghost predicate Failed(m: Matcher, ips: seq<IP>, i: nat, k: Key) {
    exists j :: 0 <= j < i <= |ips| && PrefixKey(ips[j]) == Some(k) && !Match(m, ips[j])
  }

  /** Some IP is valid and matches. The source's shortcuts, for a single IP and for no heuristic family,
      are this loop with nothing to remember. */
  method AnyMatch(m: Matcher, ips: seq<IP>) returns (r: bool)
    requires ValidSet(m.ipset)
    ensures r <==> SomeMatch(m, ips)
  {
    var buckets: set<Key> := {};
    for i := 0 to |ips|
      invariant forall j :: 0 <= j < i ==> !Match(m, ips[j])
      invariant forall k :: k in buckets ==> Failed(m, ips, i, k)
    {
      KeyFacts(ips[i]);
      var key := PrefixKey(ips[i]);
      if key.None? {
        continue;
      }
      var heur := Heuristic(m, FamilyOf(key.value));
      if heur && key.value in buckets {
        ghost var j :| 0 <= j < i && PrefixKey(ips[j]) == key && !Match(m, ips[j]);
        BucketConstant(m, ips[j], ips[i]);
        continue;
      }
      var hit := Lookup(m, FromStdIP(ips[i]).value);
      if hit {
        return true;
      }
      if heur {
        buckets := buckets + {key.value};
      }
    }
    return false;
  }

  /** reps holds one address per key seen before i, precise the addresses of the other family's mode. */
  ghost predicate Gathered(m: Matcher, ips: seq<IP>, i: nat, reps: map<Key, Addr>, precise: seq<Addr>) {
    && i <= |ips|
    && (forall j :: 0 <= j < i ==> FromStdIP(ips[j]).Some?)
    && (forall j :: 0 <= j < i ==> Seen(m, ips[j], reps, precise))
    && (forall k :: k in reps ==> Heuristic(m, FamilyOf(k)))
    && (forall k :: k in reps ==> exists j :: 0 <= j < i && PrefixKey(ips[j]) == Some(k) && FromStdIP(ips[j]) == Some(reps[k]))
    && (forall a :: a in precise ==> exists j :: 0 <= j < i && FromStdIP(ips[j]) == Some(a))
  }

  ghost predicate Seen(m: Matcher, ip: IP, reps: map<Key, Addr>, precise: seq<Addr>) {
    && PrefixKey(ip).Some? && FromStdIP(ip).Some?
    && if Heuristic(m, FamilyOf(PrefixKey(ip).value)) then PrefixKey(ip).value in reps else FromStdIP(ip).value in precise
  }

  /** The representatives and the precise addresses all match exactly when all the IPs do. */
  lemma GatheredDecides(m: Matcher, ips: seq<IP>, reps: map<Key, Addr>, precise: seq<Addr>)
    requires ValidSet(m.ipset) && Gathered(m, ips, |ips|, reps, precise)
    ensures (forall k :: k in reps ==> MatchAddr(m, reps[k])) && (forall a :: a in precise ==> MatchAddr(m, a)) <==>
            forall j :: 0 <= j < |ips| ==> Match(m, ips[j])
  {
    if (forall k :: k in reps ==> MatchAddr(m, reps[k])) && (forall a :: a in precise ==> MatchAddr(m, a)) {
      forall j | 0 <= j < |ips|
        ensures Match(m, ips[j])
      {
        assert Seen(m, ips[j], reps, precise);
        var k := PrefixKey(ips[j]).value;
        if Heuristic(m, FamilyOf(k)) {
          assert k in reps;
          var l :| 0 <= l < |ips| && PrefixKey(ips[l]) == Some(k) && FromStdIP(ips[l]) == Some(reps[k]);
          BucketConstant(m, ips[l], ips[j]);
        }
      }
    }
  }

  /** All IPs are there, valid and matching. */
  method Matches(m: Matcher, ips: seq<IP>) returns (r: bool)
    requires ValidSet(m.ipset)
    ensures r <==> AllMatch(m, ips)
  {
    hide PrefixKey, FromStdIP, MatchAddr, Heuristic, FamilyOf, ValidSet;
    if |ips| == 0 {
      return false;
    }
    var reps: map<Key, Addr> := map[];
    var precise: seq<Addr> := [];
    for i := 0 to |ips|
      invariant Gathered(m, ips, i, reps, precise)
    {
      KeyFacts(ips[i]);
      var key := PrefixKey(ips[i]);
      if key.None? {
        return false;
      }
      var a := FromStdIP(ips[i]).value;
      if Heuristic(m, FamilyOf(key.value)) {
        if key.value !in reps {
          reps := reps[key.value := a];
        }
      } else {
        precise := precise + [a];
      }
    }
    GatheredDecides(m, ips, reps, precise);
    r := AllRepsMatch(m, reps);
    if !r {
      return;
    }
    r := AllAddrsMatch(m, precise);
  }

  method AllRepsMatch(m: Matcher, reps: map<Key, Addr>) returns (r: bool)
    ensures r <==> forall k :: k in reps ==> MatchAddr(m, reps[k])
  {
    var rest := reps.Keys;
    while rest != {}
      invariant rest <= reps.Keys
      invariant forall k :: k in reps && k !in rest ==> MatchAddr(m, reps[k])
      decreases |rest|
    {
      var k :| k in rest;
      var hit := Lookup(m, reps[k]);
      if !hit {
        return false;
      }
      rest := rest - {k};
    }
    return true;
  }

  method AllAddrsMatch(m: Matcher, addrs: seq<Addr>) returns (r: bool)
    ensures r <==> forall a :: a in addrs ==> MatchAddr(m, a)
  {
    for i := 0 to |addrs|
      invariant forall j :: 0 <= j < i ==> MatchAddr(m, addrs[j])
    {
      var hit := Lookup(m, addrs[i]);
      if !hit {
        return false;
      }
    }
    return true;
  }

  // ---------------------------------------------------------------- filtering with one matcher

  datatype Bucket = Bucket(rep: Addr, ips: seq<IP>)

  /** The IPs of ips whose key is k, in order. */
  function WithKey(ips: seq<IP>, k: Key): seq<IP> {
    if ips == [] then []
    else WithKey(ips[..|ips| - 1], k) +
         (if PrefixKey(ips[|ips| - 1]) == Some(k) then [ips[|ips| - 1]] else [])
  }

  lemma {:induction false} WithKeyCount(ips: seq<IP>, k: Key, x: IP)
    ensures multiset(WithKey(ips, k))[x] == if PrefixKey(x) == Some(k) then multiset(ips)[x] else 0
    decreases ips
  {
    if ips != [] {
      var n := |ips| - 1;
      assert ips == ips[..n] + [ips[n]];
      WithKeyCount(ips[..n], k, x);
    }
  }

  /** The IPs whose family is answered precisely, in order. */
  function Precise(m: Matcher, ips: seq<IP>): seq<IP> {
    if ips == [] then []
    else
      var last := ips[|ips| - 1];
      Precise(m, ips[..|ips| - 1]) +
      (if PrefixKey(last).Some? && !Heuristic(m, FamilyOf(PrefixKey(last).value)) then [last] else [])
  }

  lemma {:induction false} PreciseCount(m: Matcher, ips: seq<IP>, x: IP)
    ensures multiset(Precise(m, ips))[x] ==
            if PrefixKey(x).Some? && !Heuristic(m, FamilyOf(PrefixKey(x).value)) then multiset(ips)[x] else 0
    decreases ips
  {
    if ips != [] {
      var n := |ips| - 1;
      assert ips == ips[..n] + [ips[n]];
      PreciseCount(m, ips[..n], x);
    }
  }

  /** rep is the address of an IP in ips with key k. */
  ghost predicate RepFrom(ips: seq<IP>, k: Key, rep: Addr) {
    exists j :: 0 <= j < |ips| && PrefixKey(ips[j]) == Some(k) && FromStdIP(ips[j]) == Some(rep)
  }

  /** The key under which a heuristic matcher files an IP. */
  function FileKey(m: Matcher, ip: IP): Option<Key> {
    if PrefixKey(ip).Some? && Heuristic(m, FamilyOf(PrefixKey(ip).value)) then PrefixKey(ip) else None
  }

  ghost predicate Sorted(m: Matcher, ips: seq<IP>, buckets: map<Key, Bucket>, precise: seq<IP>) {
    && precise == Precise(m, ips)
    && (forall k :: k in buckets ==> Heuristic(m, FamilyOf(k)) && RepFrom(ips, k, buckets[k].rep))
    && (forall k :: k in buckets ==> buckets[k].ips == WithKey(ips, k))
    && (forall j :: 0 <= j < |ips| && FileKey(m, ips[j]).Some? ==> FileKey(m, ips[j]).value in buckets)
  }

  lemma RepFromSnoc(ips: seq<IP>, ip: IP, k: Key, rep: Addr)
    requires RepFrom(ips, k, rep) || (PrefixKey(ip) == Some(k) && FromStdIP(ip) == Some(rep))
    ensures RepFrom(ips + [ip], k, rep)
  {
    var all := ips + [ip];
    if j :| 0 <= j < |ips| && PrefixKey(ips[j]) == Some(k) && FromStdIP(ips[j]) == Some(rep) {
      assert all[j] == ips[j];
    } else {
      assert all[|ips|] == ip;
    }
  }

  lemma WithKeySnoc(ips: seq<IP>, ip: IP, k: Key)
    ensures WithKey(ips + [ip], k) == WithKey(ips, k) + if PrefixKey(ip) == Some(k) then [ip] else []
  {
    assert (ips + [ip])[..|ips|] == ips;
  }

  lemma PreciseIpsSnoc(m: Matcher, ips: seq<IP>, ip: IP)
    ensures Precise(m, ips + [ip]) == Precise(m, ips) + if PrefixKey(ip).Some? && FileKey(m, ip).None? then [ip] else []
  {
    assert (ips + [ip])[..|ips|] == ips;
  }

  function File(b: map<Key, Bucket>, k: Key, ip: IP, a: Addr): map<Key, Bucket> {
    b[k := if k in b then b[k].(ips := b[k].ips + [ip]) else Bucket(a, [ip])]
  }

  lemma SortedStep(m: Matcher, ips: seq<IP>, ip: IP, buckets: map<Key, Bucket>, precise: seq<IP>)
    requires Sorted(m, ips, buckets, precise)
    ensures FileKey(m, ip).None? ==>
              Sorted(m, ips + [ip], buckets, if PrefixKey(ip).Some? then precise + [ip] else precise)
    ensures FileKey(m, ip).Some? ==>
              FromStdIP(ip).Some? && Sorted(m, ips + [ip], File(buckets, FileKey(m, ip).value, ip, FromStdIP(ip).value), precise)
  {
    hide WithKey, Precise, Heuristic, RepFrom;
    KeyFacts(ip);
    var after := if FileKey(m, ip).Some? then File(buckets, FileKey(m, ip).value, ip, FromStdIP(ip).value) else buckets;
    forall k | k in after
      ensures RepFrom(ips + [ip], k, after[k].rep) && after[k].ips == WithKey(ips + [ip], k)
    {
      WithKeySnoc(ips, ip, k);
      RepFromSnoc(ips, ip, k, after[k].rep);
      if k !in buckets {
        NoneWithKey(ips, k);
      }
    }
    PreciseIpsSnoc(m, ips, ip);
  }

  method SortIntoBuckets(m: Matcher, ips: seq<IP>) returns (buckets: map<Key, Bucket>, precise: seq<IP>)
    ensures Sorted(m, ips, buckets, precise)
  {
    hide WithKey, Precise, Heuristic, RepFrom, PrefixKey, FromStdIP;
    buckets, precise := map[], [];
    assert Sorted(m, ips[..0], buckets, precise) by {
      assert ips[..0] == [];
      NothingSorted(m);
    }
    for i := 0 to |ips|
      invariant Sorted(m, ips[..i], buckets, precise)
    {
      assert ips[..i + 1] == ips[..i] + [ips[i]];
      SortedStep(m, ips[..i], ips[i], buckets, precise);
      KeyFacts(ips[i]);
      var key := PrefixKey(ips[i]);
      if key.None? {
        continue;
      }
      if !Heuristic(m, FamilyOf(key.value)) {
        precise := precise + [ips[i]];
        continue;
      }
      var k := key.value;
      if k !in buckets {
        buckets := buckets[k := Bucket(FromStdIP(ips[i]).value, [])];
      }
      buckets := buckets[k := buckets[k].(ips := buckets[k].ips + [ips[i]])];
      assert [] + [ips[i]] == [ips[i]];
    }
    assert ips[..|ips|] == ips;
  }

  lemma NothingSorted(m: Matcher)
    ensures Sorted(m, [], map[], [])
  {
  }

  lemma {:induction false} PreciseValid(m: Matcher, ips: seq<IP>)
    ensures forall j :: 0 <= j < |Precise(m, ips)| ==> PrefixKey(Precise(m, ips)[j]).Some?
    decreases ips
  {
    if ips != [] {
      PreciseValid(m, ips[..|ips| - 1]);
    }
  }

  lemma {:induction false} NoneWithKey(ips: seq<IP>, k: Key)
    requires forall j :: 0 <= j < |ips| ==> PrefixKey(ips[j]) != Some(k)
    ensures WithKey(ips, k) == []
    decreases ips
  {
    if ips != [] {
      NoneWithKey(ips[..|ips| - 1], k);
    }
  }

  /** How often x is due in the two results once the buckets `done` and the first p precise IPs are in. */
  ghost function Due(ips: seq<IP>, done: set<Key>, x: IP): nat {
    if PrefixKey(x).Some? && PrefixKey(x).value in done then multiset(ips)[x] else 0
  }

  /** Some prefix of the address's family covers it. */
  ghost predicate Covered(s: IPSet, ip: IP) {
    FromStdIP(ip).Some? && Contains(Prefixes(s, FromStdIP(ip).value.family), FromStdIP(ip).value.bytes)
  }

  /** Its family has prefixes. */
  predicate Ruled(s: IPSet, ip: IP) {
    FromStdIP(ip).Some? && Prefixes(s, FromStdIP(ip).value.family) != []
  }

  lemma MatchIsCovered(m: Matcher, ip: IP)
    requires ValidSet(m.ipset)
    ensures Match(m, ip) <==> Ruled(m.ipset, ip) && Covered(m.ipset, ip) != m.reverse
  {
  }

  /** A partition of the valid IPs, repetitions included. What prefixes cover is the matched part of a plain
      matcher and the unmatched part of a reversed one; without prefixes of its family an IP never matches. */
  method FilterIPs(m: Matcher, ips: seq<IP>) returns (matched: seq<IP>, unmatched: seq<IP>)
    requires ValidSet(m.ipset)
    ensures var covered := if m.reverse then unmatched else matched;
            var others := if m.reverse then matched else unmatched;
            forall x :: Ruled(m.ipset, x) ==>
              && multiset(covered)[x] == (if Covered(m.ipset, x) then multiset(ips)[x] else 0)
              && multiset(others)[x] == (if Covered(m.ipset, x) then 0 else multiset(ips)[x])
    ensures forall x :: !Ruled(m.ipset, x) ==> x !in matched
    ensures forall x :: multiset(matched)[x] == if Match(m, x) then multiset(ips)[x] else 0
    ensures forall x :: multiset(unmatched)[x] == if FromStdIP(x).Some? && !Match(m, x) then multiset(ips)[x] else 0
  {
    matched, unmatched := FilterBuckets(m, ips);
    FilterByPrefixes(m, ips, matched, unmatched);
  }

  /** The buckets by their representatives, then the precise IPs one by one. */
  method FilterBuckets(m: Matcher, ips: seq<IP>) returns (matched: seq<IP>, unmatched: seq<IP>)
    requires ValidSet(m.ipset)
    ensures forall x :: multiset(matched)[x] == if Match(m, x) then multiset(ips)[x] else 0
    ensures forall x :: multiset(unmatched)[x] == if FromStdIP(x).Some? && !Match(m, x) then multiset(ips)[x] else 0
  {
    hide WithKey, Precise, Heuristic, RepFrom, PrefixKey, FromStdIP, MatchAddr, Match, Contains, ValidSet;
    var buckets, precise := SortIntoBuckets(m, ips);
    matched, unmatched := [], [];
    var rest := buckets.Keys;
    while rest != {}
      invariant rest <= buckets.Keys
      invariant forall x :: multiset(matched)[x] == if Match(m, x) then Due(ips, buckets.Keys - rest, x) else 0
      invariant forall x :: multiset(unmatched)[x] == if !Match(m, x) then Due(ips, buckets.Keys - rest, x) else 0
      decreases |rest|
    {
      var k :| k in rest;
      var b := buckets[k];
      BucketAlike(m, ips, k, b);
      var hit := Lookup(m, b.rep);
      if hit {
        matched := matched + b.ips;
      } else {
        unmatched := unmatched + b.ips;
      }
      rest := rest - {k};
    }
    PreciseValid(m, ips);
    var more, others := FilterPrecise(m, precise);
    matched, unmatched := matched + more, unmatched + others;
    forall x
      ensures Due(ips, buckets.Keys, x) + multiset(precise)[x] == if FromStdIP(x).Some? then multiset(ips)[x] else 0
      ensures Match(m, x) ==> FromStdIP(x).Some?
    {
      AllDue(m, ips, buckets, precise, x);
    }
    hide Due;
  }

  /** The buckets and the precise IPs hold everything valid. */
  lemma AllDue(m: Matcher, ips: seq<IP>, buckets: map<Key, Bucket>, precise: seq<IP>, x: IP)
    requires Sorted(m, ips, buckets, precise)
    ensures Due(ips, buckets.Keys, x) + multiset(precise)[x] == if FromStdIP(x).Some? then multiset(ips)[x] else 0
    ensures Match(m, x) ==> FromStdIP(x).Some?
  {
    hide WithKey, Precise, Heuristic, RepFrom, PrefixKey, FromStdIP;
    KeyFacts(x);
    PreciseCount(m, ips, x);
    if x in multiset(ips) {
      var j :| 0 <= j < |ips| && ips[j] == x;
      assert FileKey(m, ips[j]).Some? ==> FileKey(m, ips[j]).value in buckets;
    }
  }

  lemma FilterByPrefixes(m: Matcher, ips: seq<IP>, matched: seq<IP>, unmatched: seq<IP>)
    requires ValidSet(m.ipset)
    requires forall x :: multiset(matched)[x] == if Match(m, x) then multiset(ips)[x] else 0
    requires forall x :: multiset(unmatched)[x] == if FromStdIP(x).Some? && !Match(m, x) then multiset(ips)[x] else 0
    ensures var covered := if m.reverse then unmatched else matched;
            var others := if m.reverse then matched else unmatched;
            forall x :: Ruled(m.ipset, x) ==>
              && multiset(covered)[x] == (if Covered(m.ipset, x) then multiset(ips)[x] else 0)
              && multiset(others)[x] == (if Covered(m.ipset, x) then 0 else multiset(ips)[x])
    ensures forall x :: !Ruled(m.ipset, x) ==> x !in matched
  {
    forall x
      ensures Match(m, x) <==> Ruled(m.ipset, x) && Covered(m.ipset, x) != m.reverse
    {
      MatchIsCovered(m, x);
    }
    hide Match, Covered;
    forall x | !Ruled(m.ipset, x)
      ensures x !in matched
    {
      assert multiset(matched)[x] == 0;
    }
  }

  /** All of bucket k matches like its representative. */
  lemma BucketAlike(m: Matcher, ips: seq<IP>, k: Key, b: Bucket)
    requires ValidSet(m.ipset) && Heuristic(m, FamilyOf(k)) && b.ips == WithKey(ips, k)
    requires RepFrom(ips, k, b.rep)
    ensures forall x :: multiset(b.ips)[x] == if PrefixKey(x) == Some(k) then multiset(ips)[x] else 0
    ensures forall x :: PrefixKey(x) == Some(k) ==> (Match(m, x) <==> MatchAddr(m, b.rep))
  {
    var j :| 0 <= j < |ips| && PrefixKey(ips[j]) == Some(k) && FromStdIP(ips[j]) == Some(b.rep);
    forall x
      ensures multiset(b.ips)[x] == if PrefixKey(x) == Some(k) then multiset(ips)[x] else 0
      ensures PrefixKey(x) == Some(k) ==> (Match(m, x) <==> MatchAddr(m, b.rep))
    {
      WithKeyCount(ips, k, x);
      if PrefixKey(x) == Some(k) {
        BucketConstant(m, ips[j], x);
      }
    }
  }

  method FilterPrecise(m: Matcher, ips: seq<IP>) returns (matched: seq<IP>, unmatched: seq<IP>)
    requires forall j :: 0 <= j < |ips| ==> PrefixKey(ips[j]).Some?
    ensures forall x :: multiset(matched)[x] == if Match(m, x) then multiset(ips)[x] else 0
    ensures forall x :: multiset(unmatched)[x] == if !Match(m, x) then multiset(ips)[x] else 0
  {
    matched, unmatched := [], [];
    for i := 0 to |ips|
      invariant forall x :: multiset(matched)[x] == if Match(m, x) then multiset(ips[..i])[x] else 0
      invariant forall x :: multiset(unmatched)[x] == if !Match(m, x) then multiset(ips[..i])[x] else 0
    {
      assert ips[..i + 1] == ips[..i] + [ips[i]];
      KeyFacts(ips[i]);
      var hit := Lookup(m, FromStdIP(ips[i]).value);
      if hit {
        matched := matched + [ips[i]];
      } else {
        unmatched := unmatched + [ips[i]];
      }
    }
    assert ips[..|ips|] == ips;
  }
}
