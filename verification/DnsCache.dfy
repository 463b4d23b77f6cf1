/** The DNS cache: two maps, a background migration in batches and concurrent updates, which together
    behave as one map from domain and family to answer. */
module DnsCache {
  import opened Bytes

  const MIN_SIZE_FOR_EMPTY_REBUILD := 512
  const SHRINK_ABSOLUTE_THRESHOLD := 10240
  const SHRINK_RATIO_THRESHOLD := 0.65
  const MIGRATION_BATCH_SIZE := 4096

  type Domain = string

  /** An IPRecord: its expiry time and, abstractly, everything else. */
  datatype Answer = Answer(expire: int, payload: int)

  datatype Record = Record(a: Option<Answer>, aaaa: Option<Answer>)

  const EMPTY := Record(None, None)

  datatype Family = A | AAAA

  function Get(r: Record, f: Family): Option<Answer> {
    match f case A => r.a case AAAA => r.aaaa
  }

  function Set(r: Record, f: Family, v: Option<Answer>): Record {
    match f case A => r.(a := v) case AAAA => r.(aaaa := v)
  }

  function Other(f: Family): Family {
    match f case A => AAAA case AAAA => A
  }

  function Lookup(m: map<Domain, Record>, d: Domain): Record {
    if d in m then m[d] else EMPTY
  }

  /** The fields of r, and those of s where r has none. */
  function Override(r: Record, s: Record): Record {
    Record(if r.a.Some? then r.a else s.a, if r.aaaa.Some? then r.aaaa else s.aaaa)
  }

  /** The fields guarded by the controller's lock. */
  datatype Cache = Cache(ips: map<Domain, Record>, dirty: Option<map<Domain, Record>>, watermark: nat)

  function Dirty(c: Cache): map<Domain, Record> {
    if c.dirty.Some? then c.dirty.value else map[]
  }

  /** What the cache means for one domain. */
  function View(c: Cache, d: Domain): Record {
    Override(Lookup(c.ips, d), Lookup(Dirty(c), d))
  }

  // ---------------------------------------------------------------- lock-protected sections, as functions

  function Updated(c: Cache, d: Domain, f: Family, rep: Answer): Cache {
    c.(ips := c.ips[d := Set(Lookup(c.ips, d), f, Some(rep))])
  }

  predicate Expired(v: Option<Answer>, now: int) {
    v.Some? && v.value.expire < now
  }

  function Fresh(v: Option<Answer>, now: int): Option<Answer> {
    if Expired(v, now) then None else v
  }

  function Purge(ips: map<Domain, Record>, d: Domain, now: int): map<Domain, Record> {
    if d !in ips then ips
    else
      var r := Record(Fresh(ips[d].a, now), Fresh(ips[d].aaaa, now));
      if r == EMPTY then ips - {d} else ips[d := r]
  }

  function PurgeAll(ips: map<Domain, Record>, keys: seq<Domain>, now: int): map<Domain, Record> {
    if keys == [] then ips else PurgeAll(Purge(ips, keys[0], now), keys[1..], now)
  }

  function Max(x: nat, y: nat): nat {
    if x > y then x else y
  }

  predicate ShouldShrink(watermark: nat, size: nat) {
    var reduction := watermark - size;
    reduction > SHRINK_ABSOLUTE_THRESHOLD && reduction as real > watermark as real * SHRINK_RATIO_THRESHOLD
  }

  /** writeAndShrink: purge, then reclaim memory by rebuilding or by starting a migration. */
  function Cleaned(c: Cache, keys: seq<Domain>, now: int): Cache {
    if c.dirty.Some? then c
    else
      var peak := Max(c.watermark, |c.ips|);
      var left := PurgeAll(c.ips, keys, now);
      if |left| == 0 then
        if peak >= MIN_SIZE_FOR_EMPTY_REBUILD then Cache(map[], None, 0) else Cache(left, None, peak)
      else if ShouldShrink(peak, |left|) then Cache(map[], Some(left), |left|)
      else Cache(left, None, peak)
  }

  datatype Entry = Entry(key: Domain, value: Record)

  function FlushOne(ips: map<Domain, Record>, e: Entry): map<Domain, Record> {
    ips[e.key := if e.key in ips then Override(ips[e.key], e.value) else e.value]
  }

  function FlushAll(ips: map<Domain, Record>, batch: seq<Entry>): map<Domain, Record>
    decreases batch
  {
    if batch == [] then ips else FlushAll(FlushOne(ips, batch[0]), batch[1..])
  }

  // ---------------------------------------------------------------- serving expired answers

  /** -int32(x) for a uint32 x: the truncation wraps from 2^31 on, and so does negating -2^31. */
  function NegatedInt32(x: int): int
    requires 0 <= x < 0x1_0000_0000
  {
    if x <= 0x8000_0000 then -x else 0x1_0000_0000 - x
  }

  /** For how long an answer outlives its expiry. */
  function Grace(serveStale: bool, ttl: nat): int {
    if !serveStale then 0 else if ttl <= 0x8000_0000 then ttl else ttl - 0x1_0000_0000
  }

  predicate Overdue(expire: int, now: int, grace: int) {
    expire < now - grace
  }

  /** Every answer is kept for the configured time, exactly if that is at most 2^31 seconds or not asked for; a
      larger setting drops answers that have not even expired. */
  lemma GraceIsTtlExactly(serveStale: bool, ttl: nat)
    requires ttl < 0x1_0000_0000
    ensures (forall expire, now :: Overdue(expire, now, Grace(serveStale, ttl)) ==>
                                   Overdue(expire, now, if serveStale then ttl else 0)) <==>
            !serveStale || ttl <= 0x8000_0000
    ensures serveStale && ttl > 0x8000_0000 ==> exists expire, now :: expire >= now && Overdue(expire, now, Grace(serveStale, ttl))
  {
    if serveStale && ttl > 0x8000_0000 {
      assert Overdue(0, 0, Grace(serveStale, ttl)) && !Overdue(0, 0, ttl);
    }
  }

  lemma SomeExpired(r: Record, now: int)
    ensures (exists f :: Get(r, f).Some? && Get(r, f).value.expire < now) <==> Expired(r.a, now) || Expired(r.aaaa, now)
  {
    assert Get(r, A) == r.a && Get(r, AAAA) == r.aaaa;
  }

  /** A purge drops the answers to the given keys that expired before the deadline, unless a migration runs,
      and no others. */
  ghost predicate PurgesExactly(before: Cache, after: Cache, keys: seq<Domain>, deadline: int) {
    forall d, f :: Get(View(after, d), f) ==
      var v := Get(View(before, d), f);
      if before.dirty.None? && d in keys && v.Some? && v.value.expire < deadline then None else v
  }

  lemma CleanedPurges(c: Cache, keys: seq<Domain>, now: int)
    ensures PurgesExactly(c, Cleaned(c, keys, now), keys, now)
  {
    forall d, f
      ensures Get(View(Cleaned(c, keys, now), d), f) ==
              var v := Get(View(c, d), f);
              if c.dirty.None? && d in keys && v.Some? && v.value.expire < now then None else v
    {
      if c.dirty.None? {
        PurgeAllView(c.ips, keys, now, d);
        EmptyLookup(PurgeAll(c.ips, keys, now), d);
      }
    }
  }

  // ---------------------------------------------------------------- the controller

  datatype Collected = NothingToDo | Keys(keys: seq<Domain>)

  class CacheController {
    const disableCache: bool
    const serveStale: bool
    const serveExpiredTTL: int    // stored negated
    ghost const ttl: nat          // as configured
    var ips: map<Domain, Record>
    var dirtyips: Option<map<Domain, Record>>
    var highWatermark: nat

    function State(): Cache
      reads this
    {
      Cache(ips, dirtyips, highWatermark)
    }

    constructor (disableCache: bool, serveStale: bool, ttl: nat)
      requires ttl < 0x1_0000_0000
      ensures State() == Cache(map[], None, 0) && Configured()
      ensures this.disableCache == disableCache && this.serveStale == serveStale && this.ttl == ttl
    {
      this.disableCache, this.serveStale, this.serveExpiredTTL := disableCache, serveStale, NegatedInt32(ttl);
      this.ttl := ttl;
      ips, dirtyips, highWatermark := map[], None, 0;
    }

    ghost predicate Configured() {
      ttl < 0x1_0000_0000 && serveExpiredTTL == NegatedInt32(ttl)
    }

    /** Answers that expired before this time are dropped. */
    function Deadline(now: int): int {
      if serveStale && serveExpiredTTL != 0 then now + serveExpiredTTL else now
    }

    /** Exactly the domains with a field that expired before the time to serve stale answers, each once;
        nothing while a migration runs. */
    method CollectExpiredKeys(now: int) returns (r: Collected)
      requires Configured()
      ensures r.NothingToDo? <==> ips == map[]
      ensures r.Keys? && dirtyips.Some? ==> r.keys == []
      ensures r.Keys? && dirtyips.None? ==>
                && (forall d :: d in r.keys <==>
                      d in ips && exists f :: Get(ips[d], f).Some? && Get(ips[d], f).value.expire < now - Grace(serveStale, ttl))
                && (forall i, j :: 0 <= i < j < |r.keys| ==> r.keys[i] != r.keys[j])
    {
      if |ips| == 0 {
        return NothingToDo;
      }
      if dirtyips.Some? {
        return Keys([]);
      }
      var deadline := Deadline(now);
      var expiredKeys: seq<Domain> := [];
      var rest := ips.Keys;
      while rest != {}
        invariant rest <= ips.Keys
        invariant forall d :: d in expiredKeys <==>
                    d in ips && d !in rest && (Expired(ips[d].a, deadline) || Expired(ips[d].aaaa, deadline))
        invariant forall i, j :: 0 <= i < j < |expiredKeys| ==> expiredKeys[i] != expiredKeys[j]
        decreases |rest|
      {
        var domain :| domain in rest;
        rest := rest - {domain};
        if Expired(ips[domain].a, deadline) || Expired(ips[domain].aaaa, deadline) {
          expiredKeys := expiredKeys + [domain];
        }
      }
      forall d | d in ips
        ensures (exists f :: Get(ips[d], f).Some? && Get(ips[d], f).value.expire < deadline) <==>
                Expired(ips[d].a, deadline) || Expired(ips[d].aaaa, deadline)
      {
        SomeExpired(ips[d], deadline);
      }
      return Keys(expiredKeys);
    }

    /** Purges expired fields of the given keys unless a migration runs; start says a new one must. */
    method WriteAndShrink(expiredKeys: seq<Domain>, now: int) returns (start: bool)
      requires Configured()
      modifies this
      // exactly the collected answers that expired long enough ago go
      ensures PurgesExactly(old(State()), State(), expiredKeys, now - Grace(serveStale, ttl))
      // when memory is reclaimed
      ensures old(dirtyips).None? ==>
                var peak := Max(old(highWatermark), |old(ips)|);
                var size := if start && dirtyips.Some? then |dirtyips.value| else |ips|;
                && (start <==> size > 0 && peak - size > 10240 && 100 * (peak - size) > 65 * peak)
                && (start ==> ips == map[])
                && highWatermark == if start then size else if size == 0 && peak >= 512 then 0 else peak
      ensures State() == Cleaned(old(State()), expiredKeys, Deadline(now))
      ensures start <==> old(dirtyips).None? && dirtyips.Some?
    {
      assert Deadline(now) == now - Grace(serveStale, ttl);
      CleanedPurges(State(), expiredKeys, Deadline(now));
      hide PurgesExactly;
      start := Shrink(expiredKeys, now);
    }

    method Shrink(expiredKeys: seq<Domain>, now: int) returns (start: bool)
      modifies this
      ensures State() == Cleaned(old(State()), expiredKeys, Deadline(now))
      ensures start <==> old(dirtyips).None? && dirtyips.Some?
    {
      if dirtyips.Some? {
        return false;
      }
      if |ips| > highWatermark {
        highWatermark := |ips|;
      }
      var deadline := Deadline(now);
      for i := 0 to |expiredKeys|
        invariant PurgeAll(old(ips), expiredKeys, deadline) == PurgeAll(ips, expiredKeys[i..], deadline)
        invariant dirtyips == old(dirtyips) && highWatermark == Max(old(highWatermark), |old(ips)|)
      {
        var domain := expiredKeys[i];
        assert expiredKeys[i..][1..] == expiredKeys[i + 1..];
        if domain in ips {
          var rec := ips[domain];
          if Expired(rec.a, deadline) {
            rec := rec.(a := None);
          }
          if Expired(rec.aaaa, deadline) {
            rec := rec.(aaaa := None);
          }
          if rec.a.None? && rec.aaaa.None? {
            ips := ips - {domain};
          } else {
            ips := ips[domain := rec];
          }
        }
      }
      var lenAfter := |ips|;
      if lenAfter == 0 {
        if highWatermark >= MIN_SIZE_FOR_EMPTY_REBUILD {
          ips, highWatermark := map[], 0;
        }
        return false;
      }
      if ShouldShrink(highWatermark, lenAfter) {
        dirtyips := Some(ips);
        ips := map[];
        highWatermark := lenAfter;
        return true;
      }
      return false;
    }

    /** A cleanup that nothing interrupts: outside a migration exactly the answers go that expired before
        the time to serve stale ones, whatever their domain. */
    method CacheCleanup(now: int) returns (stopped: bool, start: bool)
      requires Configured()
      modifies this
      ensures stopped <==> old(ips) == map[]
      ensures stopped || old(dirtyips).Some? ==> State() == old(State()) && !start
      ensures !stopped && old(dirtyips).None? ==>
                forall d, f :: Get(View(State(), d), f) ==
                  var v := Get(View(old(State()), d), f);
                  if v.Some? && v.value.expire < now - Grace(serveStale, ttl) then None else v
    {
      var expired := CollectExpiredKeys(now);
      stopped, start := expired.NothingToDo?, false;
      if !stopped && |expired.keys| > 0 {
        start := WriteAndShrink(expired.keys, now);
      }
    }

    method Flush(batch: seq<Entry>)
      modifies this`ips
      ensures ips == FlushAll(old(ips), batch)
    {
      for i := 0 to |batch|
        invariant FlushAll(old(ips), batch) == FlushAll(ips, batch[i..])
      {
        assert batch[i..][1..] == batch[i + 1..];
        var dirty := batch[i];
        if dirty.key in ips {
          var cur := ips[dirty.key];
          var merge := Record(if cur.a.None? then dirty.value.a else cur.a,
                              if cur.aaaa.None? then dirty.value.aaaa else cur.aaaa);
          ips := ips[dirty.key := merge];
        } else {
          ips := ips[dirty.key := dirty.value];
        }
      }
    }

    /** migrate with nothing else running: every key goes through some batch, no batch is larger than
        the limit, and the view is the same at the end, without the dirty map. */
    method Migrate()
      modifies this
      ensures dirtyips.None? && forall d :: View(State(), d) == View(old(State()), d)
    {
      hide View, Lookup, KeysOf, FlushAll;
      if dirtyips.None? {
        return;
      }
      var dirty := dirtyips.value;
      var batch: seq<Entry> := [];
      var rest := dirty.Keys;
      NoKeys();
      while rest != {}
        invariant dirtyips == Some(dirty) && rest <= dirty.Keys && |batch| < MIGRATION_BATCH_SIZE
        invariant FromMap(dirty, batch)
        invariant forall d :: View(State(), d) == View(old(State()), d)
        invariant forall d :: d in dirty && d !in rest && d !in KeysOf(batch) ==> Covers(Lookup(ips, d), dirty[d])
        decreases |rest|
      {
        var domain :| domain in rest;
        rest := rest - {domain};
        KeysOfSnoc(batch, Entry(domain, dirty[domain]));
        batch := batch + [Entry(domain, dirty[domain])];
        if |batch| >= MIGRATION_BATCH_SIZE {
          FlushBatch(dirty, batch);
          batch := [];
          NoKeys();
        }
      }
      if |batch| > 0 {
        FlushBatch(dirty, batch);
      }
      NoKeys();
      CoveredView(State());
      EndMigration();
    }

    /** One flush of snapshot entries: the view stays, flushed keys become covered. */
    method FlushBatch(ghost dirty: map<Domain, Record>, batch: seq<Entry>)
      requires dirtyips == Some(dirty) && FromMap(dirty, batch)
      modifies this`ips
      ensures ips == FlushAll(old(ips), batch)
      ensures forall d :: View(State(), d) == View(old(State()), d)
      ensures forall d :: d in KeysOf(batch) ==> d in dirty && Covers(Lookup(ips, d), dirty[d])
      ensures forall d :: Covers(Lookup(ips, d), Lookup(old(ips), d))
    {
      Flush(batch);
      forall d
        ensures View(State(), d) == View(old(State()), d) && Covers(Lookup(ips, d), Lookup(old(ips), d))
        ensures d in KeysOf(batch) ==> d in dirty && Covers(Lookup(ips, d), dirty[d])
      {
        FlushAllView(old(ips), dirty, batch, d);
      }
    }

    method EndMigration()
      modifies this`dirtyips
      ensures dirtyips == None
    {
      dirtyips := None;
    }

    /** Stores one answer; pub is the other family's answer as the cache knows it. The periodic cleanup is kept
        going unless stale answers are served forever. */
    method UpdateRecord(domain: Domain, reqType: Family, rep: Answer) returns (pub: Option<Answer>, cleanup: bool)
      requires Configured()
      modifies this
      ensures cleanup <==> !disableCache && (!serveStale || ttl != 0)
      ensures disableCache ==> State() == old(State()) && pub == None
      ensures !disableCache ==> State() == Updated(old(State()), domain, reqType, rep)
      ensures !disableCache ==> pub == Get(View(old(State()), domain), Other(reqType))
    {
      if disableCache {
        return None, false;
      }
      var newRec := EMPTY;
      pub := None;
      match reqType {
        case A =>
          newRec := newRec.(a := Some(rep));
          if domain in ips && ips[domain].aaaa.Some? {
            newRec := newRec.(aaaa := ips[domain].aaaa);
            pub := ips[domain].aaaa;
          } else if dirtyips.Some? && domain in dirtyips.value && dirtyips.value[domain].aaaa.Some? {
            pub := dirtyips.value[domain].aaaa;
          }
        case AAAA =>
          newRec := newRec.(aaaa := Some(rep));
          if domain in ips && ips[domain].a.Some? {
            newRec := newRec.(a := ips[domain].a);
            pub := ips[domain].a;
          } else if dirtyips.Some? && domain in dirtyips.value && dirtyips.value[domain].a.Some? {
            pub := dirtyips.value[domain].a;
          }
      }
      ips := ips[domain := newRec];
      cleanup := !serveStale || serveExpiredTTL != 0;
    }

    method FindRecords(domain: Domain) returns (rec: Option<Record>)
      ensures rec == Found(State(), domain)
    {
      if domain in ips {
        return Some(ips[domain]);
      }
      if dirtyips.Some? && domain in dirtyips.value {
        return Some(dirtyips.value[domain]);
      }
      return None;
    }
  }

  function Found(c: Cache, d: Domain): Option<Record> {
    if d in c.ips then Some(c.ips[d]) else if d in Dirty(c) then Some(Dirty(c)[d]) else None
  }

  /** Every field findRecords returns is the view's. */
  lemma FoundAgreesWithView(c: Cache, d: Domain, f: Family)
    ensures Found(c, d).Some? && Get(Found(c, d).value, f).Some? ==> Get(Found(c, d).value, f) == Get(View(c, d), f)
  {
  }

  /** It returns the whole view exactly when the newer record misses nothing the older one holds. */
  lemma FoundIsWholeView(c: Cache, d: Domain)
    ensures (if Found(c, d).Some? then Found(c, d).value else EMPTY) == View(c, d) <==>
            !(d in c.ips && exists f :: Get(c.ips[d], f).None? && Get(Lookup(Dirty(c), d), f).Some?)
  {
    if d in c.ips {
      var before := Lookup(Dirty(c), d);
      assert Get(c.ips[d], A) == c.ips[d].a && Get(before, A) == before.a;
      assert Get(c.ips[d], AAAA) == c.ips[d].aaaa && Get(before, AAAA) == before.aaaa;
    }
  }

  // ---------------------------------------------------------------- the system and its runs

  /** A migrate goroutine: not yet started, or working through its snapshot with `todo` still to flush. */
  datatype Migrator = Spawned | Copying(snapshot: map<Domain, Record>, todo: set<Domain>)

  datatype System = System(cache: Cache, migrators: seq<Migrator>)

  datatype Step =
    | Update(d: Domain, f: Family, rep: Answer)
    | Cleanup(keys: seq<Domain>, now: int)
    | Start(i: nat)
    | Batch(i: nat, entries: seq<Entry>)
    | Finish(i: nat)

  /** The entries are distinct pending keys of the migrator with the values of its snapshot. */
  ghost predicate ProperBatch(m: Migrator, entries: seq<Entry>) {
    && m.Copying? && 0 < |entries| <= MIGRATION_BATCH_SIZE
    && FromMap(m.snapshot, entries) && KeysOf(entries) <= m.todo
  }

  /** The entries carry values of m. */
  ghost predicate FromMap(m: map<Domain, Record>, batch: seq<Entry>) {
    forall i :: 0 <= i < |batch| ==> batch[i].key in m && batch[i].value == m[batch[i].key]
  }

  lemma NoKeys()
    ensures KeysOf([]) == {}
  {
  }

  /** Once every dirty record is covered the dirty map can go. */
  lemma CoveredView(c: Cache)
    requires forall d :: d in Dirty(c) ==> Covers(Lookup(c.ips, d), Dirty(c)[d])
    ensures forall d :: View(c.(dirty := None), d) == View(c, d)
  {
  }

  lemma KeysOfSnoc(batch: seq<Entry>, e: Entry)
    ensures KeysOf(batch + [e]) == KeysOf(batch) + {e.key}
  {
    var more := batch + [e];
    forall d | d in KeysOf(batch) + {e.key}
      ensures d in KeysOf(more)
    {
      if d == e.key {
        assert more[|batch|].key == d;
      } else {
        var i :| 0 <= i < |batch| && batch[i].key == d;
        assert more[i].key == d;
      }
    }
  }

  ghost function KeysOf(entries: seq<Entry>): set<Domain> {
    set i | 0 <= i < |entries| :: entries[i].key
  }

  ghost predicate Enabled(s: System, t: Step) {
    match t
    case Update(_, _, _) => true
    case Cleanup(_, _) => true
    case Start(i) => i < |s.migrators| && s.migrators[i].Spawned?
    case Batch(i, entries) => i < |s.migrators| && ProperBatch(s.migrators[i], entries)
    case Finish(i) => i < |s.migrators| && s.migrators[i].Copying? && s.migrators[i].todo == {}
  }

  function Drop<T>(xs: seq<T>, i: nat): seq<T>
    requires i < |xs|
  {
    xs[..i] + xs[i + 1..]
  }

  ghost function Next(s: System, t: Step): System
    requires Enabled(s, t)
  {
    match t
    case Update(d, f, rep) => s.(cache := Updated(s.cache, d, f, rep))
    case Cleanup(keys, now) =>
      var c := Cleaned(s.cache, keys, now);
      System(c, if s.cache.dirty.None? && c.dirty.Some? then s.migrators + [Spawned] else s.migrators)
    case Start(i) =>
      if s.cache.dirty.None? then s.(migrators := Drop(s.migrators, i))
      else s.(migrators := s.migrators[i := Copying(s.cache.dirty.value, s.cache.dirty.value.Keys)])
    case Batch(i, entries) =>
      System(s.cache.(ips := FlushAll(s.cache.ips, entries)),
             s.migrators[i := s.migrators[i].(todo := s.migrators[i].todo - KeysOf(entries))])
    case Finish(i) => System(s.cache.(dirty := None), Drop(s.migrators, i))
  }

  /** Whatever r holds, s holds too. */
  predicate Covers(s: Record, r: Record) {
    (r.a.Some? ==> s.a.Some?) && (r.aaaa.Some? ==> s.aaaa.Some?)
  }

  /** At most one migration, only while the dirty map is there; a flushed key is covered. */
  ghost predicate Inv(s: System) {
    && (s.cache.dirty.None? ==> s.migrators == [])
    && (s.cache.dirty.Some? ==>
          && |s.migrators| == 1
          && (s.migrators[0].Copying? ==>
                && s.migrators[0].snapshot == s.cache.dirty.value
                && s.migrators[0].todo <= s.cache.dirty.value.Keys
                && forall d :: d in s.cache.dirty.value && d !in s.migrators[0].todo ==>
                     Covers(Lookup(s.cache.ips, d), s.cache.dirty.value[d])))
  }

  lemma {:induction false} PurgeAllView(ips: map<Domain, Record>, keys: seq<Domain>, now: int, d: Domain)
    ensures Lookup(PurgeAll(ips, keys, now), d) ==
            if d in keys then Record(Fresh(Lookup(ips, d).a, now), Fresh(Lookup(ips, d).aaaa, now)) else Lookup(ips, d)
  {
    if keys != [] {
      PurgeAllView(Purge(ips, keys[0], now), keys[1..], now, d);
      assert d in keys <==> d == keys[0] || d in keys[1..];
    }
  }

  /** Flushing snapshot values changes a record only by filling its gaps from the snapshot. */
  lemma {:induction false} FlushAllView(ips: map<Domain, Record>, m: map<Domain, Record>, batch: seq<Entry>, d: Domain)
    requires FromMap(m, batch)
    ensures Override(Lookup(FlushAll(ips, batch), d), Lookup(m, d)) == Override(Lookup(ips, d), Lookup(m, d))
    ensures d in KeysOf(batch) ==> d in m && Covers(Lookup(FlushAll(ips, batch), d), m[d])
    ensures Covers(Lookup(FlushAll(ips, batch), d), Lookup(ips, d))
    decreases batch
  {
    if batch != [] {
      FlushAllView(FlushOne(ips, batch[0]), m, batch[1..], d);
      if d in KeysOf(batch) && d != batch[0].key {
        var i :| 0 <= i < |batch| && batch[i].key == d;
        assert batch[1..][i - 1].key == d;
      }
    }
  }

  /** A new cache with no migration under way. */
  const NEW := System(Cache(map[], None, 0), [])

  lemma InvInit()
    ensures Inv(NEW)
  {
  }

  /** Every step of every goroutine keeps the invariant. */
  lemma InvStep(s: System, t: Step)
    requires Inv(s) && Enabled(s, t)
    ensures Inv(Next(s, t))
  {
    var s' := Next(s, t);
    match t {
      case Batch(i, entries) =>
        var m := s.cache.dirty.value;
        forall d | d in m && d !in s'.migrators[0].todo
          ensures Covers(Lookup(s'.cache.ips, d), m[d])
        {
          FlushAllView(s.cache.ips, m, entries, d);
        }
      case _ =>
    }
  }

  // ---------------------------------------------------------------- the one map it refines

  /** What a step means for the one map. */
  datatype Event = Silent | Store(d: Domain, f: Family, rep: Answer) | Expire(keys: seq<Domain>, now: int)

  function EventOf(s: System, t: Step): Event {
    match t
    case Update(d, f, rep) => Store(d, f, rep)
    case Cleanup(keys, now) => if s.cache.dirty.None? then Expire(keys, now) else Silent
    case _ => Silent
  }

  /** The simple cache: a function from domain to record. */
  function Apply(v: Record, d: Domain, e: Event): Record {
    match e
    case Silent => v
    case Store(d', f, rep) => if d == d' then Set(v, f, Some(rep)) else v
    case Expire(keys, now) => if d in keys then Record(Fresh(v.a, now), Fresh(v.aaaa, now)) else v
  }

  /** Each step of the system is, for every domain, the event's step of the simple cache: an update
      changes one field of one domain, a purge removes only expired fields and only outside a
      migration, and starting, flushing and ending a migration change nothing. */
  lemma StepRefines(s: System, t: Step, d: Domain)
    requires Inv(s) && Enabled(s, t)
    ensures View(Next(s, t).cache, d) == Apply(View(s.cache, d), d, EventOf(s, t))
  {
    match t {
      case Cleanup(keys, now) =>
        if s.cache.dirty.None? {
          PurgeAllView(s.cache.ips, keys, now, d);
          EmptyLookup(PurgeAll(s.cache.ips, keys, now), d);
        }
      case Batch(i, entries) =>
        FlushAllView(s.cache.ips, s.cache.dirty.value, entries, d);
      case Finish(i) =>
        assert s.migrators[0].todo == {};
      case _ =>
    }
  }

  lemma EmptyLookup(m: map<Domain, Record>, d: Domain)
    ensures |m| == 0 ==> Lookup(m, d) == EMPTY
  {
    if |m| == 0 {
      assert m.Keys == {};
    }
  }

  ghost predicate Runs(s: System, steps: seq<Step>)
    decreases steps
  {
    steps == [] || (Enabled(s, steps[0]) && Runs(Next(s, steps[0]), steps[1..]))
  }

  ghost function Last(s: System, steps: seq<Step>): System
    requires Runs(s, steps)
    decreases steps
  {
    if steps == [] then s else Last(Next(s, steps[0]), steps[1..])
  }

  ghost function Events(s: System, steps: seq<Step>): seq<Event>
    requires Runs(s, steps)
    decreases steps
  {
    if steps == [] then [] else [EventOf(s, steps[0])] + Events(Next(s, steps[0]), steps[1..])
  }

  function ApplyAll(v: Record, d: Domain, es: seq<Event>): Record
    decreases es
  {
    if es == [] then v else ApplyAll(Apply(v, d, es[0]), d, es[1..])
  }

  /** Over every interleaving of updates, cleanups and migrations the cache refines the one map, never
      runs two migrations, and has none without a dirty map. */
  lemma {:induction false} RunRefines(s: System, steps: seq<Step>, d: Domain)
    requires Inv(s) && Runs(s, steps)
    ensures Inv(Last(s, steps)) && |Last(s, steps).migrators| <= 1
    ensures View(Last(s, steps).cache, d) == ApplyAll(View(s.cache, d), d, Events(s, steps))
    decreases steps
  {
    if steps != [] {
      InvStep(s, steps[0]);
      StepRefines(s, steps[0], d);
      RunRefines(Next(s, steps[0]), steps[1..], d);
    }
  }

  /** From a new cache: what is cached is what the updates stored, less what expired. */
  lemma NewCacheRefines(steps: seq<Step>, d: Domain)
    requires Runs(NEW, steps)
    ensures Inv(Last(NEW, steps)) && |Last(NEW, steps).migrators| <= 1
    ensures View(Last(NEW, steps).cache, d) == ApplyAll(EMPTY, d, Events(NEW, steps))
  {
    InvInit();
    RunRefines(NEW, steps, d);
  }

  // ---------------------------------------------------------------- a run that ends in a partial record

  lemma {:induction false} RunsSnoc(s: System, steps: seq<Step>, t: Step)
    requires Runs(s, steps) && Enabled(Last(s, steps), t)
    ensures Runs(s, steps + [t]) && Last(s, steps + [t]) == Next(Last(s, steps), t)
    decreases steps
  {
    hide Enabled, Next;
    if steps == [] {
      assert steps + [t] == [t] && [t][1..] == [];
      assert Runs(Next(s, t), [t][1..]);
    } else {
      assert (steps + [t])[1..] == steps[1..] + [t];
      RunsSnoc(Next(s, steps[0]), steps[1..], t);
    }
  }

  /** Domains that nothing distinguishes but their length. */
  function Name(k: nat): Domain {
    seq(k, i => 'x')
  }

  function Names(n: nat): seq<Domain> {
    if n == 0 then [] else Names(n - 1) + [Name(n - 1)]
  }

  function Filled(n: nat, stale: Answer): map<Domain, Record> {
    if n == 0 then map[] else Filled(n - 1, stale)[Name(n - 1) := Record(Some(stale), None)]
  }

  function Fill(n: nat, stale: Answer): seq<Step> {
    if n == 0 then [] else Fill(n - 1, stale) + [Update(Name(n - 1), A, stale)]
  }

  lemma {:induction false} FilledHolds(n: nat, stale: Answer)
    ensures |Filled(n, stale)| == n
    ensures forall d :: d in Filled(n, stale) <==> d in Names(n)
    ensures forall d :: d in Filled(n, stale) ==> Filled(n, stale)[d] == Record(Some(stale), None) && |d| < n
    ensures forall d :: d in Filled(n, stale) ==> d != "d"
  {
    if n > 0 {
      FilledHolds(n - 1, stale);
      assert |Name(n - 1)| == n - 1;
      assert n == 2 ==> Name(1)[0] == 'x';
      assert Name(n - 1) != "d";
    }
  }

  lemma {:induction false} FillRuns(n: nat, stale: Answer)
    ensures Runs(NEW, Fill(n, stale)) && Last(NEW, Fill(n, stale)) == System(Cache(Filled(n, stale), None, 0), [])
  {
    if n > 0 {
      FillRuns(n - 1, stale);
      FilledHolds(n - 1, stale);
      assert Name(n - 1) !in Filled(n - 1, stale);
      RunsSnoc(NEW, Fill(n - 1, stale), Update(Name(n - 1), A, stale));
    }
  }

  ghost predicate NoEmptyRecord(m: map<Domain, Record>) {
    forall d :: d in m ==> m[d] != EMPTY
  }

  lemma {:induction false} PurgeLeavesNoEmpty(ips: map<Domain, Record>, keys: seq<Domain>, now: int)
    requires NoEmptyRecord(ips)
    ensures NoEmptyRecord(PurgeAll(ips, keys, now))
  {
    if keys != [] {
      PurgeLeavesNoEmpty(Purge(ips, keys[0], now), keys[1..], now);
    }
  }

  /** Of many expired domains and one fresh one, a purge leaves the fresh one. */
  lemma PurgeLeavesOne(n: nat, stale: Answer, six: Answer, ips: map<Domain, Record>)
    requires ips == Filled(n, stale)["d" := Record(None, Some(six))] && stale.expire < six.expire
    ensures PurgeAll(ips, Names(n), six.expire) == map["d" := Record(None, Some(six))] && |ips| == n + 1
  {
    FilledHolds(n, stale);
    hide Filled, Names, PurgeAll, Name;
    assert "d" !in Names(n);
    assert ips.Keys == Filled(n, stale).Keys + {"d"};
    PurgeLeavesNoEmpty(ips, Names(n), six.expire);
    var left := PurgeAll(ips, Names(n), six.expire);
    forall d ensures Lookup(left, d) == if d == "d" then Record(None, Some(six)) else EMPTY {
      PurgeAllView(ips, Names(n), six.expire, d);
      if d != "d" {
        assert d in ips <==> d in Names(n);
      }
    }
    OnlyOne(left, "d", Record(None, Some(six)));
  }

  lemma OnlyOne(m: map<Domain, Record>, d: Domain, r: Record)
    requires NoEmptyRecord(m) && r != EMPTY && forall e :: Lookup(m, e) == if e == d then r else EMPTY
    ensures m == map[d := r]
  {
    assert Lookup(m, d) == r;
    forall e | e in m ensures e == d {
      assert Lookup(m, e) == m[e];
    }
  }

  /** Enough domains for a cleanup to start a migration, one of them with a fresh IPv6 answer, and then an
      IPv4 answer for that one. */
  function Busy(stale: Answer, four: Answer, six: Answer): seq<Step> {
    Fill(10241, stale) + [Update("d", AAAA, six)] + [Cleanup(Names(10241), six.expire)] + [Update("d", A, four)]
  }

  /** A partial record is reachable from a new cache, whatever the two answers: after an update during a
      migration, findRecords misses the other family although the cache holds it. */
  lemma PartialRecordReached(four: Answer, six: Answer)
    ensures var steps := Busy(Answer(six.expire - 1, 0), four, six);
            && Runs(NEW, steps)
            && var c := Last(NEW, steps).cache;
               View(c, "d") == Record(Some(four), Some(six)) && Found(c, "d") == Some(Record(Some(four), None))
  {
    var n, stale := 10241, Answer(six.expire - 1, 0);
    var a := Fill(n, stale);
    var b := a + [Update("d", AAAA, six)];
    var c := b + [Cleanup(Names(n), six.expire)];
    FillRuns(n, stale);
    FilledHolds(n, stale);
    assert "d" !in Filled(n, stale);
    hide Fill, Filled, Names, Runs, Last, PurgeAll;
    RunsSnoc(NEW, a, Update("d", AAAA, six));
    var ips := Filled(n, stale)["d" := Record(None, Some(six))];
    assert Last(NEW, b) == System(Cache(ips, None, 0), []);
    PurgeLeavesOne(n, stale, six, ips);
    RunsSnoc(NEW, b, Cleanup(Names(n), six.expire));
    var left := map["d" := Record(None, Some(six))];
    assert |left| == 1;
    assert Last(NEW, c).cache == Cache(map[], Some(left), 1);
    RunsSnoc(NEW, c, Update("d", A, four));
  }
}
