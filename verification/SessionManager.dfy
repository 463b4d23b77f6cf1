/** The table of sessions that share one mux connection. */
module Sessions {
  import opened Bytes

  datatype Transfer = Stream | Packet

  /** A session; `output` names the pipe it delivers to once it has one. */
  datatype Session = Session(id: nat, transfer: Transfer, output: Option<nat>)

  /** The limits a client works under; zero is no limit. */
  datatype ClientStrategy = ClientStrategy(maxConcurrency: nat, maxConnection: nat)

  datatype Table = Table(sessions: map<nat, Session>, count: nat, closed: bool)

  const NEW_TABLE := Table(map[], 0, false)

  ghost predicate Valid(t: Table) {
    && t.count < 65536
    && (t.closed ==> t.sessions == map[])
    && (forall id | id in t.sessions :: t.sessions[id].id == id)
  }

  /** The uint16 the allocator compares with. */
  function ConnectionLimit(c: ClientStrategy): nat {
    c.maxConnection % 65536
  }

  predicate Refuses(t: Table, c: ClientStrategy) {
    || t.closed
    || (c.maxConcurrency > 0 && |t.sessions| >= c.maxConcurrency)
    || (ConnectionLimit(c) > 0 && t.count >= ConnectionLimit(c))
  }

  /** Everything that happens to a table, one lock-protected section each. */
  datatype Op =
    | Allocate(strategy: ClientStrategy)
    | Add(session: Session)
    | Remove(id: nat)
    | IdleClose(checkSize: nat, checkCount: nat)
    | Close

  predicate Idle(t: Table, checkSize: nat, checkCount: nat) {
    |t.sessions| == 0 && checkSize == 0 && checkCount == t.count
  }

  function Counted(t: Table): nat {
    Wrap(t.count + 1)
  }

  function Apply(t: Table, op: Op): Table {
    match op
    case Allocate(c) =>
      if Refuses(t, c) then t
      else Table(t.sessions[Counted(t) := Session(Counted(t), Stream, None)], Counted(t), false)
    case Add(s) =>
      if t.closed then t else Table(t.sessions[s.id := s], Counted(t), false)
    case Remove(id) =>
      if t.closed then t else t.(sessions := t.sessions - {id})
    case IdleClose(size, count) =>
      if t.closed || !Idle(t, size, count) then t else Table(map[], t.count, true)
    case Close => Table(map[], t.count, true)
  }

  /** Whether this step registers a session. */
  predicate Creates(t: Table, op: Op) {
    match op
    case Allocate(c) => !Refuses(t, c)
    case Add(_) => !t.closed
    case _ => false
  }

  function After(t: Table, ops: seq<Op>): Table {
    if ops == [] then t else Apply(After(t, ops[..|ops| - 1]), ops[|ops| - 1])
  }

  /** The IDs that the sessions registered by a run got, in order. */
  function Created(t: Table, ops: seq<Op>): seq<nat> {
    if ops == [] then []
    else
      var n := |ops| - 1;
      var u := After(t, ops[..n]);
      Created(t, ops[..n]) +
      (if !Creates(u, ops[n]) then [] else if ops[n].Allocate? then [Counted(u)] else [ops[n].session.id])
  }

  class SessionManager {
    var sessions: map<nat, Session>
    var count: nat
    var closed: bool

    function State(): Table
      reads this
    {
      Table(sessions, count, closed)
    }

    constructor ()
      ensures State() == NEW_TABLE
    {
      sessions, count, closed := map[], 0, false;
    }

    method Allocate(c: ClientStrategy) returns (s: Option<Session>)
      modifies this
      ensures State() == Apply(old(State()), Op.Allocate(c))
      ensures s.None? <==> Refuses(old(State()), c)
      ensures s.Some? ==> s.value == Session(count, Stream, None) && sessions == old(sessions)[count := s.value]
    {
      var limit := c.maxConnection % 65536;
      if closed || (c.maxConcurrency > 0 && |sessions| >= c.maxConcurrency) || (limit > 0 && count >= limit) {
        return None;
      }
      count := (count + 1) % 65536;
      s := Some(Session(count, Stream, None));
      sessions := sessions[count := s.value];
    }

    method Add(s: Session) returns (ok: bool)
      modifies this
      ensures State() == Apply(old(State()), Op.Add(s))
      ensures ok <==> !old(closed)
    {
      if closed {
        return false;
      }
      count := (count + 1) % 65536;
      sessions := sessions[s.id := s];
      ok := true;
    }

    method Remove(id: nat)
      modifies this
      ensures State() == Apply(old(State()), Op.Remove(id))
    {
      if closed {
        return;
      }
      sessions := sessions - {id};
    }

    method Get(id: nat) returns (s: Option<Session>)
      ensures s == if !closed && id in sessions then Some(sessions[id]) else None
    {
      if closed || id !in sessions {
        return None;
      }
      s := Some(sessions[id]);
    }

    method CloseIfNoSessionAndIdle(checkSize: nat, checkCount: nat) returns (r: bool)
      modifies this
      ensures State() == Apply(old(State()), IdleClose(checkSize, checkCount))
      ensures r <==> closed
    {
      if closed {
        return true;
      }
      if |sessions| != 0 || checkSize != 0 || checkCount != count {
        return false;
      }
      closed, sessions := true, map[];
      r := true;
    }

    method Close()
      requires closed ==> sessions == map[]
      modifies this
      ensures State() == Apply(old(State()), Op.Close)
    {
      if closed {
        return;
      }
      closed, sessions := true, map[];
    }
  }

  lemma ApplyValid(t: Table, op: Op)
    requires Valid(t)
    ensures Valid(Apply(t, op))
  {
  }

  lemma {:induction false} AfterValid(t: Table, ops: seq<Op>)
    requires Valid(t)
    ensures Valid(After(t, ops))
  {
    if ops != [] {
      AfterValid(t, ops[..|ops| - 1]);
      ApplyValid(After(t, ops[..|ops| - 1]), ops[|ops| - 1]);
    }
  }

  lemma {:induction false} AfterConcat(t: Table, a: seq<Op>, b: seq<Op>)
    ensures After(t, a + b) == After(After(t, a), b)
    ensures Created(t, a + b) == Created(t, a) + Created(After(t, a), b)
  {
    if b == [] {
      assert a + b == a;
    } else {
      var n := |b| - 1;
      assert (a + b)[..|a + b| - 1] == a + b[..n];
      AfterConcat(t, a, b[..n]);
    }
  }

  /** A closed table stays closed, stays empty and registers nothing more. */
  lemma {:induction false} ClosedIsForever(t: Table, ops: seq<Op>)
    requires Valid(t) && t.closed
    ensures After(t, ops) == t && Created(t, ops) == []
  {
    if ops != [] {
      ClosedIsForever(t, ops[..|ops| - 1]);
    }
  }

  /** The counter is the number of registrations, modulo 65536. */
  lemma {:induction false} CountsRegistrations(t: Table, ops: seq<Op>)
    requires Valid(t)
    ensures After(t, ops).count == Wrap(t.count + |Created(t, ops)|)
  {
    if ops != [] {
      var n := |ops| - 1;
      hide Apply, Creates, Wrap;
      CountsRegistrations(t, ops[..n]);
      var u := After(t, ops[..n]);
      CountStep(u, ops[n]);
      Wrapped(t.count + |Created(t, ops[..n])|);
    }
  }

  lemma CountStep(t: Table, op: Op)
    ensures Apply(t, op).count == if Creates(t, op) then Counted(t) else t.count
  {
  }

  lemma Wrapped(n: nat)
    ensures Wrap(Wrap(n) + 1) == Wrap(n + 1)
  {
  }

  lemma WrapsBack(n: nat, k: nat)
    requires n < 65536
    ensures Wrap(n + k) == n <==> k % 65536 == 0
  {
    var q, r := k / 65536, k % 65536;
    assert n + k == 65536 * q + (n + r);
    if n + r < 65536 {
      Quotient(q, n + r);
    } else {
      assert n + k == 65536 * (q + 1) + (n + r - 65536);
      Quotient(q + 1, n + r - 65536);
    }
  }

  lemma Quotient(q: nat, r: nat)
    requires r < 65536
    ensures (65536 * q + r) % 65536 == r
  {
  }

  /**
   * Idle close, sampled in one state and tried after a run: it closes an open table exactly when
   * the table is empty, the sampled size was zero and a multiple of 65536 sessions was registered
   * in between.
   */
  lemma IdleCloseExactly(t: Table, ops: seq<Op>, checkSize: nat)
    requires Valid(t)
    ensures var u := After(t, ops);
            !u.closed ==>
              (Apply(u, IdleClose(checkSize, t.count)).closed <==>
               u.sessions == map[] && checkSize == 0 && |Created(t, ops)| % 65536 == 0)
  {
    hide After, Created;
    CountsRegistrations(t, ops);
    AfterValid(t, ops);
    WrapsBack(t.count, |Created(t, ops)|);
    var u := After(t, ops);
    assert u.sessions == map[] <==> |u.sessions| == 0 by {
      assert |u.sessions| == |u.sessions.Keys|;
    }
  }

  /** With fewer than 65536 registrations since the sample, an idle close means there was none. */
  lemma IdleCloseMeansNoneCreated(t: Table, ops: seq<Op>, checkSize: nat)
    requires Valid(t) && |Created(t, ops)| < 65536
    requires !After(t, ops).closed && Apply(After(t, ops), IdleClose(checkSize, t.count)).closed
    ensures Created(t, ops) == [] && After(t, ops).sessions == map[]
  {
    hide After, Created, Apply;
    IdleCloseExactly(t, ops, checkSize);
  }

  // ----- the client: every session comes from Allocate under one strategy -----

  predicate ClientOp(op: Op, c: ClientStrategy) {
    match op
    case Allocate(d) => d == c
    case Add(_) => false
    case _ => true
  }

  ghost predicate ClientOps(ops: seq<Op>, c: ClientStrategy) {
    forall i | 0 <= i < |ops| :: ClientOp(ops[i], c)
  }

  /** Never more live sessions than MaxConcurrency, whatever a caller saw before it allocated. */
  lemma {:induction false} ConcurrencyBounded(ops: seq<Op>, c: ClientStrategy)
    requires ClientOps(ops, c) && c.maxConcurrency > 0
    ensures |After(NEW_TABLE, ops).sessions| <= c.maxConcurrency
  {
    if ops != [] {
      var n := |ops| - 1;
      ConcurrencyBounded(ops[..n], c);
      var t := After(NEW_TABLE, ops[..n]);
      assert ClientOp(ops[n], c);
      if ops[n].Remove? && !t.closed {
        assert Apply(t, ops[n]).sessions.Keys == t.sessions.Keys - {ops[n].id};
      } else if ops[n].Allocate? && !Refuses(t, c) {
        assert Apply(t, ops[n]).sessions.Keys == t.sessions.Keys + {Counted(t)};
      }
    }
  }

  /** Under a limit the IDs handed out are 1, 2, 3, … and end at the limit. */
  lemma {:induction false} AllocatedInOrder(ops: seq<Op>, c: ClientStrategy)
    requires ClientOps(ops, c) && ConnectionLimit(c) > 0
    ensures var ids := Created(NEW_TABLE, ops);
            After(NEW_TABLE, ops).count == |ids| <= ConnectionLimit(c) &&
            forall i | 0 <= i < |ids| :: ids[i] == i + 1
  {
    if ops != [] {
      var n := |ops| - 1;
      AllocatedInOrder(ops[..n], c);
      assert ClientOp(ops[n], c);
    }
  }

  ghost predicate Distinct(ids: seq<nat>) {
    forall i, j | 0 <= i < j < |ids| :: ids[i] != ids[j]
  }

  /** No run of a client under this strategy hands out an ID twice. */
  ghost predicate NeverReuses(c: ClientStrategy) {
    forall ops | ClientOps(ops, c) :: Distinct(Created(NEW_TABLE, ops))
  }

  /** `n` sessions, each gone before the next. */
  function OneByOne(c: ClientStrategy, n: nat): seq<Op> {
    if n == 0 then [] else OneByOne(c, n - 1) + [Allocate(c), Remove(Wrap(n))]
  }

  lemma {:induction false} OneByOneClient(c: ClientStrategy, n: nat)
    ensures ClientOps(OneByOne(c, n), c)
  {
    if n > 0 {
      OneByOneClient(c, n - 1);
    }
  }

  /** 1, 2, …, wrapping. */
  function Ids(n: nat): seq<nat> {
    if n == 0 then [] else Ids(n - 1) + [Wrap(n)]
  }

  lemma {:induction false} IdsAt(n: nat, i: nat)
    requires i < n
    ensures |Ids(n)| == n && Ids(n)[i] == Wrap(i + 1)
  {
    hide Wrap;
    if n == 1 {
      assert Ids(0) == [];
    } else if i < n - 1 {
      IdsAt(n - 1, i);
    } else {
      IdsAt(n - 1, 0);
    }
  }

  lemma {:induction false} OneByOneRun(c: ClientStrategy, n: nat)
    requires ConnectionLimit(c) == 0
    ensures After(NEW_TABLE, OneByOne(c, n)) == Table(map[], Wrap(n), false)
    ensures Created(NEW_TABLE, OneByOne(c, n)) == Ids(n)
  {
    if n > 0 {
      hide After, Created, Apply, Wrap, ConnectionLimit;
      OneByOneRun(c, n - 1);
      var t := Table(map[], Wrap(n - 1), false);
      Wrapped(n - 1);
      assert Counted(t) == Wrap(n);
      hide Counted;
      OneSession(c, t);
      AfterConcat(NEW_TABLE, OneByOne(c, n - 1), [Allocate(c), Remove(Wrap(n))]);
    }
  }

  lemma OneSession(c: ClientStrategy, t: Table)
    requires ConnectionLimit(c) == 0 && t.sessions == map[] && !t.closed && t.count < 65536
    ensures After(t, [Allocate(c), Remove(Counted(t))]) == t.(count := Counted(t))
    ensures Created(t, [Allocate(c), Remove(Counted(t))]) == [Counted(t)]
  {
    var ops := [Allocate(c), Remove(Counted(t))];
    assert ops[..1] == [Allocate(c)] && ops[..1][..0] == [];
    assert After(t, ops[..1]) == Apply(After(t, []), Allocate(c));
    assert Created(t, ops[..1]) == Created(t, []) + [Counted(t)];
    assert Apply(t, Allocate(c)).sessions - {Counted(t)} == map[];
  }

  /** IDs are unique over every run exactly when the 16-bit connection limit is not zero. */
  lemma NeverReusesExactly(c: ClientStrategy)
    ensures NeverReuses(c) <==> c.maxConnection % 65536 != 0
  {
    if c.maxConnection % 65536 != 0 {
      forall ops | ClientOps(ops, c) ensures Distinct(Created(NEW_TABLE, ops)) {
        AllocatedInOrder(ops, c);
      }
    } else {
      var ops := OneByOne(c, 65537);
      OneByOneClient(c, 65537);
      OneByOneRun(c, 65537);
      hide OneByOne, Created, Ids;
      IdsAt(65537, 0);
      IdsAt(65537, 65536);
      assert Created(NEW_TABLE, ops)[0] == Created(NEW_TABLE, ops)[65536];
      assert !Distinct(Created(NEW_TABLE, ops));
    }
  }

  /** ClientWorker.IsFull, on a table whose worker is not done. */
  predicate IsFull(t: Table, c: ClientStrategy) {
    || (c.maxConnection > 0 && t.count >= c.maxConnection)
    || (c.maxConcurrency > 0 && |t.sessions| >= c.maxConcurrency)
  }

  /**
   * The 32-bit limit that IsFull reads and the 16-bit limit that Allocate reads decide alike on
   * every open table exactly when the configured number fits 16 bits or is a multiple of 65536.
   */
  lemma FullMatchesRefusal(c: ClientStrategy)
    ensures (forall t: Table | Valid(t) && !t.closed :: IsFull(t, c) <==> Refuses(t, c)) <==>
            (c.maxConnection < 65536 || c.maxConnection % 65536 == 0)
  {
    if c.maxConnection >= 65536 && c.maxConnection % 65536 != 0 {
      var t := Table(map[], c.maxConnection % 65536, false);
      assert Valid(t) && !IsFull(t, c) && Refuses(t, c);
    }
  }

  ghost predicate Registered(t: Table, x: Session) {
    x.id in t.sessions && t.sessions[x.id] == x
  }

  /** Once s is added, closing any one live session leaves every other one registered. */
  ghost predicate Isolates(t: Table, s: Session) {
    forall x, y | (x == s || Registered(t, x)) && (y == s || Registered(t, y)) && x != y ::
      Registered(Apply(Apply(t, Add(s)), Remove(y.id)), x)
  }

  /** A server registers under the peer's ID. Live sessions do not interfere with a new one exactly if its
      ID is not in use; otherwise it hides the session that has the ID, and closing either drops both. */
  lemma IsolatesExactly(t: Table, s: Session)
    requires Valid(t) && !t.closed && !Registered(t, s)
    ensures Isolates(t, s) <==> s.id !in t.sessions
  {
    if s.id in t.sessions {
      var u := t.sessions[s.id];
      assert Registered(t, u) && u != s;
      assert !Registered(Apply(Apply(t, Add(s)), Remove(s.id)), u);
    }
  }

  /** In every run of a client, an ID about to be allocated is not in use. */
  ghost predicate AllocatesUnused(c: ClientStrategy) {
    forall ops | ClientOps(ops, c) && !Refuses(After(NEW_TABLE, ops), c) ::
      Counted(After(NEW_TABLE, ops)) !in After(NEW_TABLE, ops).sessions
  }

  /** So an allocated session never interferes with a live one, in any run of a client, exactly if there is a
      connection limit, in 16 bits, or only one session at a time. */
  lemma AllocatesUnusedExactly(c: ClientStrategy)
    ensures AllocatesUnused(c) <==> c.maxConnection % 65536 != 0 || c.maxConcurrency == 1
  {
    if c.maxConnection % 65536 != 0 || c.maxConcurrency == 1 {
      forall ops | ClientOps(ops, c) && !Refuses(After(NEW_TABLE, ops), c)
        ensures Counted(After(NEW_TABLE, ops)) !in After(NEW_TABLE, ops).sessions
      {
        if c.maxConnection % 65536 != 0 {
          AllocateIsolates(ops, c);
        } else {
          NoneLive(After(NEW_TABLE, ops));
        }
      }
    } else {
      var ops := OneStays(c, 65535);
      OneStaysClient(c, 65535);
      OneStaysRun(c, 65535);
      hide OneStays, After;
      assert !Refuses(After(NEW_TABLE, ops), c);
      assert Counted(After(NEW_TABLE, ops)) == 1;
    }
  }

  lemma NoneLive(t: Table)
    requires |t.sessions| < 1
    ensures t.sessions == map[]
  {
    assert |t.sessions.Keys| == 0;
  }

  /** One session that stays, and `n` others, each gone before the next. */
  function OneStays(c: ClientStrategy, n: nat): seq<Op> {
    if n == 0 then [Allocate(c)] else OneStays(c, n - 1) + [Allocate(c), Remove(Wrap(n + 1))]
  }

  lemma {:induction false} OneStaysClient(c: ClientStrategy, n: nat)
    ensures ClientOps(OneStays(c, n), c)
  {
    if n > 0 {
      OneStaysClient(c, n - 1);
    }
  }

  lemma {:induction false} OneStaysRun(c: ClientStrategy, n: nat)
    requires ConnectionLimit(c) == 0 && c.maxConcurrency != 1 && n < 65536
    ensures After(NEW_TABLE, OneStays(c, n)) == Table(map[1 := Session(1, Stream, None)], Wrap(n + 1), false)
  {
    if n == 0 {
      assert OneStays(c, 0)[..0] == [];
    } else {
      hide After, Apply, Wrap, ConnectionLimit;
      OneStaysRun(c, n - 1);
      var t := Table(map[1 := Session(1, Stream, None)], Wrap(n), false);
      Wrapped(n);
      Beyond(n);
      assert Counted(t) == Wrap(n + 1);
      hide Counted;
      OneMoreSession(c, t);
      AfterConcat(NEW_TABLE, OneStays(c, n - 1), [Allocate(c), Remove(Wrap(n + 1))]);
    }
  }

  lemma Beyond(n: nat)
    requires 0 < n < 65536
    ensures Wrap(n + 1) != 1
  {
  }

  lemma OneMoreSession(c: ClientStrategy, t: Table)
    requires ConnectionLimit(c) == 0 && c.maxConcurrency != 1 && |t.sessions| == 1 && !t.closed
    requires Counted(t) !in t.sessions
    ensures After(t, [Allocate(c), Remove(Counted(t))]) == t.(count := Counted(t))
  {
    var ops := [Allocate(c), Remove(Counted(t))];
    assert ops[..1] == [Allocate(c)] && ops[..1][..0] == [];
    assert After(t, ops[..1]) == Apply(After(t, []), Allocate(c));
    assert t.sessions[Counted(t) := Session(Counted(t), Stream, None)] - {Counted(t)} == t.sessions;
  }

  /** An allocated ID is never in use while the limit is not zero. */
  lemma AllocateIsolates(ops: seq<Op>, c: ClientStrategy)
    requires ClientOps(ops, c) && ConnectionLimit(c) > 0 && !Refuses(After(NEW_TABLE, ops), c)
    ensures var t := After(NEW_TABLE, ops);
            Counted(t) !in t.sessions && Isolates(t, Session(Counted(t), Stream, None))
  {
    var t := After(NEW_TABLE, ops);
    AllocatedInOrder(ops, c);
    LiveBelowCount(ops, c);
    AfterValid(NEW_TABLE, ops);
    hide After, Created;
    assert Counted(t) == t.count + 1;
    IsolatesExactly(t, Session(Counted(t), Stream, None));
  }

  lemma {:induction false} LiveBelowCount(ops: seq<Op>, c: ClientStrategy)
    requires ClientOps(ops, c) && ConnectionLimit(c) > 0
    ensures var t := After(NEW_TABLE, ops); forall id | id in t.sessions :: id <= t.count
  {
    if ops != [] {
      var n := |ops| - 1;
      LiveBelowCount(ops[..n], c);
      AllocatedInOrder(ops[..n], c);
      hide Created;
      assert ClientOp(ops[n], c);
    }
  }
}
