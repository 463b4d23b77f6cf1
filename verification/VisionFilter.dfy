/** XtlsFilterTls: what the first packets tell about the proxied connection. */
module VisionFilter {
  import opened Bytes

  const SERVER_HELLO_START: seq<Byte> := [0x16, 0x03, 0x03]
  const CLIENT_HELLO_START: seq<Byte> := [0x16, 0x03]
  const APPLICATION_DATA_START: seq<Byte> := [0x17, 0x03, 0x03]
  const SUPPORTED_VERSIONS_TLS13: seq<Byte> := [0x00, 0x2b, 0x00, 0x02, 0x03, 0x04]

  /** The fields of TrafficState that both directions share. */
  datatype Flags = Flags(packets: int, tls: bool, tls12: bool, xtls: bool, cipher: int, hello: int)

  const FRESH := Flags(8, false, false, false, 0, -1)

  predicate OccursAt(s: seq<Byte>, part: seq<Byte>, i: int) {
    0 <= i <= |s| - |part| && s[i..i + |part|] == part
  }

  predicate Contains(s: seq<Byte>, part: seq<Byte>) {
    exists i :: 0 <= i <= |s| && OccursAt(s, part, i)
  }

  /** The entries of Tls13CipherSuiteDic other than TLS_AES_128_CCM_8_SHA256 (0x1305). */
  predicate StrongCipher(c: int) {
    0x1301 <= c <= 0x1304
  }

  /** Bytes 43+n+1 and 43+n+2 of a server hello, n its session id length. They may lie past the end
      of the buffer, inside its array; `stale` stands for whatever is there. */
  function CipherOf(b: seq<Byte>, stale: int): int
    requires |b| >= 79
  {
    var at := 44 + (b[43] as int);
    if at + 2 <= |b| then Uint16(b[at..at + 2]) else stale
  }

  /** The look at the first six bytes. */
  function Greet(f: Flags, b: seq<Byte>, stale: int): Flags {
    if |b| < 6 then f
    else if b[..3] == SERVER_HELLO_START && b[5] == 2 then
      var g := f.(hello := Uint16(b[3..5]) + 5, tls12 := true, tls := true);
      if |b| >= 79 && g.hello >= 79 then g.(cipher := CipherOf(b, stale)) else g
    else if b[..2] == CLIENT_HELLO_START && b[5] == 1 then f.(tls := true)
    else f
  }

  datatype Filtered = Filtered(flags: Flags, stop: bool)

  /** The search for the supported-versions extension while a server hello lasts. */
  function Search(f: Flags, b: seq<Byte>): Filtered {
    if f.hello > 0 then
      var end := if f.hello > |b| then |b| else f.hello;
      var g := f.(hello := f.hello - |b|);
      if Contains(b[..end], SUPPORTED_VERSIONS_TLS13) then
        Filtered(g.(xtls := f.xtls || StrongCipher(f.cipher), packets := 0), true)
      else if g.hello <= 0 then Filtered(g.(packets := 0), true)
      else Filtered(g, false)
    else Filtered(f, false)
  }

  function FilterOne(f: Flags, b: seq<Byte>, stale: int): Filtered {
    Search(Greet(f.(packets := f.packets - 1), b, stale), b)
  }

  function FilterAll(f: Flags, bufs: seq<seq<Byte>>, stale: seq<int>): Flags
    requires |stale| == |bufs|
    decreases bufs
  {
    if bufs == [] then f
    else
      var r := FilterOne(f, bufs[0], stale[0]);
      if r.stop then r.flags else FilterAll(r.flags, bufs[1..], stale[1..])
  }

  /** XTLS is only enabled inside a TLS 1.2+ connection, which is a TLS connection. */
  predicate Coherent(f: Flags) {
    && (f.xtls ==> f.tls12)
    && (f.tls12 ==> f.tls)
    && (f.hello > 0 ==> f.tls12)
  }

  predicate NeverUnlearns(f: Flags, g: Flags) {
    (f.tls ==> g.tls) && (f.tls12 ==> g.tls12) && (f.xtls ==> g.xtls)
  }

  /** Filtering any packets, whatever they hold, keeps the flags coherent and never clears one. */
  lemma {:induction false} FilterKeepsCoherent(f: Flags, bufs: seq<seq<Byte>>, stale: seq<int>)
    requires Coherent(f) && |stale| == |bufs|
    ensures Coherent(FilterAll(f, bufs, stale)) && NeverUnlearns(f, FilterAll(f, bufs, stale))
    ensures FilterAll(f, bufs, stale).packets <= f.packets || FilterAll(f, bufs, stale).packets == 0
    decreases bufs
  {
    if bufs != [] {
      var r := FilterOne(f, bufs[0], stale[0]);
      if !r.stop {
        FilterKeepsCoherent(r.flags, bufs[1..], stale[1..]);
      }
    }
  }

  predicate ServerHello(b: seq<Byte>) {
    |b| >= 6 && b[..3] == SERVER_HELLO_START && b[5] == 2
  }

  /** The flags with which buffer i is searched. */
  function Searched(f: Flags, bufs: seq<seq<Byte>>, stale: seq<int>, i: nat): Flags
    requires i < |bufs| == |stale|
  {
    var g := FilterAll(f, bufs[..i], stale[..i]);
    Greet(g.(packets := g.packets - 1), bufs[i], stale[i])
  }

  /** The part of b that belongs to a server hello holds the extension. */
  predicate Tls13In(g: Flags, b: seq<Byte>) {
    && g.hello > 0 && StrongCipher(g.cipher)
    && Contains(b[..if g.hello > |b| then |b| else g.hello], SUPPORTED_VERSIONS_TLS13)
  }

  lemma OneEnables(f: Flags, b: seq<Byte>, stale: int)
    ensures var r := FilterOne(f, b, stale);
            && (!f.xtls && r.flags.xtls ==> r.stop && Tls13In(Greet(f.(packets := f.packets - 1), b, stale), b))
            && (f.hello <= 0 && r.flags.hello > 0 ==> ServerHello(b))
            && (f.hello <= 0 && Greet(f.(packets := f.packets - 1), b, stale).hello > 0 ==> ServerHello(b))
  {
    hide Contains;
  }

  /** XTLS is enabled only by a supported-versions extension that lies in the part of a buffer still
      belonging to a server hello, and with one of the strong ciphers. */
  lemma {:induction false} EnablingNeedsTls13(f: Flags, bufs: seq<seq<Byte>>, stale: seq<int>) returns (i: nat)
    requires |stale| == |bufs| && !f.xtls && FilterAll(f, bufs, stale).xtls
    ensures i < |bufs|
    ensures Tls13In(Searched(f, bufs, stale, i), bufs[i])
    ensures f.hello <= 0 ==> exists j :: 0 <= j <= i && ServerHello(bufs[j])
    decreases bufs
  {
    hide Contains, FilterOne, Greet, ServerHello;
    OneEnables(f, bufs[0], stale[0]);
    var r := FilterOne(f, bufs[0], stale[0]);
    if r.stop {
      i := 0;
      assert bufs[..0] == [];
      assert FilterAll(f, bufs[..0], stale[..0]) == f;
      assert f.hello <= 0 ==> ServerHello(bufs[0]);
    } else {
      var k := EnablingNeedsTls13(r.flags, bufs[1..], stale[1..]);
      i := k + 1;
      assert bufs[..i][1..] == bufs[1..][..k] && stale[..i][1..] == stale[1..][..k];
      assert FilterAll(f, bufs[..i], stale[..i]) == FilterAll(r.flags, bufs[1..][..k], stale[1..][..k]);
      if f.hello <= 0 {
        if r.flags.hello <= 0 {
          var j :| 0 <= j <= k && ServerHello(bufs[1..][j]);
          assert bufs[1..][j] == bufs[j + 1];
        } else {
          assert ServerHello(bufs[0]);
        }
      }
    }
  }

  // ---------------------------------------------------------------- hellos from their parts

  /** What a buffer holds that begins with a server hello, the fields of section 4.1.3 of RFC 8446 inside a
      handshake record of section 5.1: `record` is the length in the record's header, `length` that of the
      message; `rest` is whatever follows the cipher suite. */
  datatype Hello = Hello(record: nat, length: seq<Byte>, version: seq<Byte>, random: seq<Byte>, session: seq<Byte>,
                         cipher: nat, rest: seq<Byte>)

  predicate WellFormed(h: Hello) {
    h.record < 65536 && |h.length| == 3 && |h.version| == 2 && |h.random| == 32 && |h.session| < 256 && h.cipher < 65536
  }

  function HelloBytes(h: Hello): (b: seq<Byte>)
    requires WellFormed(h)
    ensures |b| >= 46
  {
    [0x16, 0x03, 0x03] + PutUint16(h.record) + [0x02] + h.length + h.version + h.random +
    [|h.session| as Byte] + h.session + PutUint16(h.cipher) + h.rest
  }

  lemma HelloFields(h: Hello)
    requires WellFormed(h)
    ensures var b := HelloBytes(h);
            && ServerHello(b) && b[..2] == [0x16, 0x03] && Uint16(b[3..5]) == h.record
            && b[43] as int == |h.session| && 46 + |h.session| <= |b|
            && Uint16(b[44 + |h.session|..46 + |h.session|]) == h.cipher
  {
    Uint16RoundTrip(h.record);
    Uint16RoundTrip(h.cipher);
    hide PutUint16, Uint16;
    var b := HelloBytes(h);
    assert b[..3] == [0x16, 0x03, 0x03];
    assert b[3..5] == PutUint16(h.record);
    assert b[44 + |h.session|..46 + |h.session|] == PutUint16(h.cipher);
  }

  /** The supported-versions extension that selects TLS 1.3. */
  predicate Tls13At(b: seq<Byte>, k: int) {
    0 <= k <= |b| - 6 && b[k..k + 6] == [0x00, 0x2b, 0x00, 0x02, 0x03, 0x04]
  }

  /** It is there, among the first `end` bytes. */
  ghost predicate SelectsTls13(b: seq<Byte>, end: int) {
    exists k :: k + 6 <= end && Tls13At(b, k)
  }

  lemma SelectsWithin(b: seq<Byte>, end: int)
    ensures SelectsTls13(b, end) <==> SelectsTls13(b, if end > |b| then |b| else end)
  {
  }

  lemma SearchFinds(b: seq<Byte>, end: int)
    requires 0 <= end <= |b|
    ensures Contains(b[..end], SUPPORTED_VERSIONS_TLS13) <==> SelectsTls13(b, end)
  {
    if Contains(b[..end], SUPPORTED_VERSIONS_TLS13) {
      var i :| 0 <= i <= |b[..end]| && OccursAt(b[..end], SUPPORTED_VERSIONS_TLS13, i);
      assert b[..end][i..i + 6] == b[i..i + 6];
      assert Tls13At(b, i);
    }
    if SelectsTls13(b, end) {
      var k :| k + 6 <= end && Tls13At(b, k);
      assert b[..end][k..k + 6] == b[k..k + 6];
      assert OccursAt(b[..end], SUPPORTED_VERSIONS_TLS13, k);
    }
  }

  /** How the search ends while a hello lasts. */
  lemma SearchExactly(g: Flags, b: seq<Byte>)
    requires g.hello > 0
    ensures var r := Search(g, b);
            var found := SelectsTls13(b, g.hello);
            && r.flags.hello == g.hello - |b| && r.flags.cipher == g.cipher
            && r.flags.tls == g.tls && r.flags.tls12 == g.tls12
            && (r.flags.xtls <==> g.xtls || (found && 0x1301 <= g.cipher <= 0x1304))
            && (r.stop <==> found || |b| >= g.hello)
            && r.flags.packets == if r.stop then 0 else g.packets
  {
    hide Contains, SelectsTls13;
    var end := if g.hello > |b| then |b| else g.hello;
    SearchFinds(b, end);
    SelectsWithin(b, g.hello);
  }

  /** What one buffer tells about the connection, whatever was known before: a handshake record of type client
      hello makes it TLS, one of type server hello TLS 1.2 or above. */
  lemma TlsExactly(f: Flags, b: seq<Byte>, stale: int)
    ensures var g := FilterOne(f, b, stale).flags;
            var handshake := |b| >= 6 && b[0] == 0x16 && b[1] == 0x03;
            && (g.tls <==> f.tls || (handshake && (b[5] == 1 || (b[2] == 0x03 && b[5] == 2))))
            && (g.tls12 <==> f.tls12 || (handshake && b[2] == 0x03 && b[5] == 2))
  {
    hide Contains, CipherOf;
    if |b| >= 6 {
      assert b[..3] == [b[0], b[1], b[2]] && b[..2] == [b[0], b[1]];
    }
  }

  lemma GreetHello(f: Flags, h: Hello, stale: int)
    requires WellFormed(h)
    ensures var b := HelloBytes(h);
            Greet(f, b, stale) == f.(hello := h.record + 5, tls := true, tls12 := true,
                                     cipher := if |b| >= 79 && h.record + 5 >= 79 then h.cipher else f.cipher)
  {
    HelloFields(h);
    hide HelloBytes, Uint16;
  }

  /** The filter understands a server hello, all its fields where they are for every length of the session id:
      the cipher is learned if buffer and record are long enough; the extension inside the record, with a
      strong cipher, enables XTLS; it or the end of the record stops the filter. */
  lemma HelloExactly(f: Flags, h: Hello, stale: int)
    requires WellFormed(h)
    ensures var b := HelloBytes(h);
            var r := FilterOne(f, b, stale);
            var found := SelectsTls13(b, h.record + 5);
            var cipher := if |b| >= 79 && h.record >= 74 then h.cipher else f.cipher;
            && r.flags.tls && r.flags.tls12 && r.flags.cipher == cipher && r.flags.hello == h.record + 5 - |b|
            && (r.flags.xtls <==> f.xtls || (found && 0x1301 <= cipher <= 0x1304))
            && (r.stop <==> found || |b| >= h.record + 5)
            && r.flags.packets == if r.stop then 0 else f.packets - 1
  {
    hide HelloBytes, Greet, Search, SelectsTls13;
    var g := f.(packets := f.packets - 1);
    GreetHello(g, h, stale);
    SearchExactly(Greet(g, HelloBytes(h), stale), HelloBytes(h));
  }

  predicate Enabled(f: Flags) {
    f.xtls && f.tls12 && f.tls && f.packets == 0
  }

  /** Flags with which the extension, when it comes, enables XTLS. */
  predicate Waiting(f: Flags) {
    f.hello > 0 && f.tls && f.tls12 && 0x1301 <= f.cipher <= 0x1304
  }

  lemma GreetOther(f: Flags, b: seq<Byte>, stale: int)
    requires !ServerHello(b)
    ensures Greet(f, b, stale) == f || Greet(f, b, stale) == f.(tls := true)
  {
  }

  lemma {:induction false} WaitingEnables(f: Flags, bufs: seq<seq<Byte>>, stale: seq<int>, k: nat)
    requires |stale| == |bufs| && k < |bufs| && Waiting(f)
    requires forall i :: 0 <= i <= k ==> !ServerHello(bufs[i])
    requires SelectsTls13(bufs[k], f.hello - |Flatten(bufs[..k])|)
    ensures Enabled(FilterAll(f, bufs, stale))
    decreases bufs
  {
    hide ServerHello, SelectsTls13, Greet, Search, Flatten;
    var b := bufs[0];
    var g := f.(packets := f.packets - 1);
    GreetOther(g, b, stale[0]);
    var r := FilterOne(f, b, stale[0]);
    SearchExactly(Greet(g, b, stale[0]), b);
    if k == 0 {
      FlattenNone();
      assert bufs[..0] == [];
    } else {
      assert bufs[..k] == [b] + bufs[1..][..k - 1];
      FlattenCons(b, bufs[1..][..k - 1]);
      SelectsInside(bufs[k], f.hello - |Flatten(bufs[..k])|);
      if !r.stop {
        WaitingEnables(r.flags, bufs[1..], stale[1..], k - 1);
      }
    }
  }

  lemma FlattenNone()
    ensures Flatten<Byte>([]) == []
  {
  }

  lemma FlattenCons(b: seq<Byte>, more: seq<seq<Byte>>)
    ensures Flatten([b] + more) == b + Flatten(more)
  {
    assert ([b] + more)[1..] == more;
  }

  lemma SelectsInside(b: seq<Byte>, end: int)
    requires SelectsTls13(b, end)
    ensures end >= 6
  {
  }

  /** XTLS is enabled by every TLS 1.3 server hello with a strong cipher, however it is cut into buffers: the
      first one long enough, the extension in buffer k inside the record, and no buffer up to it that
      looks like another server hello. */
  lemma Tls13Enables(f: Flags, h: Hello, more: seq<seq<Byte>>, stale: seq<int>, k: nat)
    requires WellFormed(h) && |HelloBytes(h)| >= 79 && h.record >= 74 && 0x1301 <= h.cipher <= 0x1304
    requires |stale| == 1 + |more| && k <= |more|
    requires forall i :: 0 <= i < k ==> !ServerHello(more[i])
    requires var bufs := [HelloBytes(h)] + more;
             SelectsTls13(bufs[k], h.record + 5 - |Flatten(bufs[..k])|)
    ensures Enabled(FilterAll(f, [HelloBytes(h)] + more, stale))
  {
    hide HelloBytes, FilterOne, SelectsTls13, ServerHello, Flatten;
    var b := HelloBytes(h);
    var bufs := [b] + more;
    HelloExactly(f, h, stale[0]);
    var r := FilterOne(f, b, stale[0]);
    assert bufs[1..] == more && bufs[0] == b;
    SelectsInside(bufs[k], h.record + 5 - |Flatten(bufs[..k])|);
    FlattenNone();
    if k == 0 {
      assert bufs[..0] == [];
    } else {
      assert bufs[..k] == [b] + more[..k - 1];
      FlattenCons(b, more[..k - 1]);
      if !r.stop {
        WaitingEnables(r.flags, more, stale[1..], k - 1);
      }
    }
  }

  class TrafficState {
    var packetsToFilter: int
    var isTls: bool
    var isTls12orAbove: bool
    var enableXtls: bool
    var cipher: int
    var remainingServerHello: int

    function State(): Flags
      reads this
    {
      Flags(packetsToFilter, isTls, isTls12orAbove, enableXtls, cipher, remainingServerHello)
    }

    constructor ()
      ensures State() == FRESH && Coherent(State())
    {
      packetsToFilter, cipher, remainingServerHello := 8, 0, -1;
      isTls, isTls12orAbove, enableXtls := false, false, false;
    }

    /** One iteration of the loop; stop is its early return. */
    method FilterPacket(b: seq<Byte>, stale: int) returns (stop: bool)
      modifies this
      ensures Filtered(State(), stop) == FilterOne(old(State()), b, stale)
    {
      packetsToFilter := packetsToFilter - 1;
      if |b| >= 6 {
        if b[..3] == SERVER_HELLO_START && b[5] == 2 {
          remainingServerHello := Uint16(b[3..5]) + 5;
          isTls12orAbove := true;
          isTls := true;
          if |b| >= 79 && remainingServerHello >= 79 {
            cipher := CipherOf(b, stale);
          }
        } else if b[..2] == CLIENT_HELLO_START && b[5] == 1 {
          isTls := true;
        }
      }
      if remainingServerHello > 0 {
        var end := if remainingServerHello > |b| then |b| else remainingServerHello;
        remainingServerHello := remainingServerHello - |b|;
        if Contains(b[..end], SUPPORTED_VERSIONS_TLS13) {
          if StrongCipher(cipher) {
            enableXtls := true;
          }
          packetsToFilter := 0;
          return true;
        } else if remainingServerHello <= 0 {
          packetsToFilter := 0;
          return true;
        }
      }
      return false;
    }

    method XtlsFilterTls(bufs: seq<seq<Byte>>, stale: seq<int>)
      requires |stale| == |bufs|
      modifies this
      ensures State() == FilterAll(old(State()), bufs, stale)
    {
      for i := 0 to |bufs|
        invariant FilterAll(old(State()), bufs, stale) == FilterAll(State(), bufs[i..], stale[i..])
      {
        assert bufs[i..][1..] == bufs[i + 1..] && stale[i..][1..] == stale[i + 1..];
        var stop := FilterPacket(bufs[i], stale[i]);
        if stop {
          return;
        }
      }
    }
  }
}
