/** HeuristicMultiIPMatcher.FilterIPs: two independent views per family, and what that means for the
    two results. */
module IpMultiFilter {
  import opened Bytes
  import opened IpMatcher
  import opened IpMultiMatcher

  /** ipBucketViews, one family. A None entry is a bucket or an IP that has been matched. */
  datatype FilterView = FilterView(buckets: Option<map<Key, Option<Bucket>>>, precise: Option<map<Addr, Option<IP>>>)

  /** Some matcher of `done` that answers family f in the given mode matches the IP. */
  ghost predicate HitBy(done: seq<Matcher>, f: Family, heur: bool, ip: IP) {
    exists j :: 0 <= j < |done| && Heuristic(done[j], f) == heur && Match(done[j], ip)
  }

  ghost predicate ModeUsed(done: seq<Matcher>, f: Family, heur: bool) {
    exists j :: 0 <= j < |done| && Heuristic(done[j], f) == heur
  }

  lemma HitBySnoc(done: seq<Matcher>, m: Matcher, f: Family, heur: bool, ip: IP)
    ensures HitBy(done + [m], f, heur, ip) <==> HitBy(done, f, heur, ip) || (Heuristic(m, f) == heur && Match(m, ip))
    ensures ModeUsed(done + [m], f, heur) <==> ModeUsed(done, f, heur) || Heuristic(m, f) == heur
    ensures MatchOne(done + [m], ip) <==> MatchOne(done, ip) || Match(m, ip)
  {
    hide Heuristic, Match;
    var all := done + [m];
    assert all[|done|] == m;
    assert forall j :: 0 <= j < |done| ==> all[j] == done[j];
  }

  /** The bucket view of ips after the matchers `done`. */
  ghost predicate BucketView(b: map<Key, Option<Bucket>>, ips: seq<IP>, f: Family, done: seq<Matcher>) {
    && (forall k :: k in b ==> FamilyOf(k) == f)
    && (forall k :: k in b && b[k].Some? ==> b[k].value.ips == WithKey(ips, k) && RepFrom(ips, k, b[k].value.rep))
    && (forall i :: 0 <= i < |ips| && InFamily(ips[i], f) ==> KeyStatus(b, ips[i], !HitBy(done, f, true, ips[i])))
  }

  ghost predicate KeyStatus(b: map<Key, Option<Bucket>>, ip: IP, left: bool) {
    PrefixKey(ip).Some? && PrefixKey(ip).value in b && (b[PrefixKey(ip).value].Some? <==> left)
  }

  /** The precise view of ips after the matchers `done`. */
  ghost predicate PreciseView(p: map<Addr, Option<IP>>, ips: seq<IP>, f: Family, done: seq<Matcher>) {
    && (forall a :: a in p && p[a].Some? ==> p[a].value in ips && FromStdIP(p[a].value) == Some(a) && a.family == f)
    && (forall i :: 0 <= i < |ips| && InFamily(ips[i], f) ==> AddrStatus(p, ips[i], !HitBy(done, f, false, ips[i])))
  }

  ghost predicate AddrStatus(p: map<Addr, Option<IP>>, ip: IP, left: bool) {
    FromStdIP(ip).Some? && FromStdIP(ip).value in p && (p[FromStdIP(ip).value].Some? <==> left)
  }

  ghost predicate GoodFilterView(v: FilterView, ips: seq<IP>, f: Family, done: seq<Matcher>) {
    && (if v.buckets.Some? then BucketView(v.buckets.value, ips, f, done) else !ModeUsed(done, f, true))
    && (if v.precise.Some? then PreciseView(v.precise.value, ips, f, done) else !ModeUsed(done, f, false))
  }

  /** Views exist only for modes that were used. */
  ghost predicate OnlyUsed(v: FilterView, f: Family, done: seq<Matcher>) {
    (v.buckets.Some? ==> ModeUsed(done, f, true)) && (v.precise.Some? ==> ModeUsed(done, f, false))
  }

  lemma EmptyViews(ips: seq<IP>)
    ensures GoodFilterView(FilterView(None, None), ips, F4, []) && GoodFilterView(FilterView(None, None), ips, F6, [])
    ensures MatchedSoFar(ips, [], [])
  {
  }

  /** xs holds the address of ip. */
  ghost predicate Lists(xs: seq<IP>, ip: IP) {
    exists j :: 0 <= j < |xs| && FromStdIP(xs[j]) == FromStdIP(ip)
  }

  lemma ListsConcat(xs: seq<IP>, ys: seq<IP>, ip: IP)
    ensures Lists(xs + ys, ip) <==> Lists(xs, ip) || Lists(ys, ip)
  {
    hide FromStdIP;
    var all := xs + ys;
    if j :| 0 <= j < |xs| && FromStdIP(xs[j]) == FromStdIP(ip) {
      assert all[j] == xs[j];
    }
    if j :| 0 <= j < |ys| && FromStdIP(ys[j]) == FromStdIP(ip) {
      assert all[|xs| + j] == ys[j];
    }
  }

  // ---------------------------------------------------------------- building views

  lemma {:induction false} WithKeyMembers(ips: seq<IP>, k: Key)
    ensures forall x :: x in WithKey(ips, k) <==> x in ips && PrefixKey(x) == Some(k)
    decreases ips
  {
    if ips != [] {
      WithKeyMembers(ips[..|ips| - 1], k);
      assert ips == ips[..|ips| - 1] + [ips[|ips| - 1]];
    }
  }

  /** No matcher of the mode has run yet: everything is left. */
  method BuildBuckets(ips: seq<IP>, f: Family, ghost done: seq<Matcher>) returns (b: map<Key, Option<Bucket>>)
    requires !ModeUsed(done, f, true)
    ensures BucketView(b, ips, f, done)
  {
    hide PrefixKey, FromStdIP, WithKey, RepFrom, Heuristic, Match;
    b := map[];
    for i := 0 to |ips|
      invariant forall k :: k in b ==> FamilyOf(k) == f && b[k].Some? && RepFrom(ips[..i], k, b[k].value.rep)
      invariant forall k :: k in b ==> b[k].value.ips == WithKey(ips[..i], k)
      invariant forall j :: 0 <= j < i && PrefixKey(ips[j]).Some? && FamilyOf(PrefixKey(ips[j]).value) == f ==>
                  PrefixKey(ips[j]).value in b
    {
      var ip := ips[i];
      assert ips[..i + 1] == ips[..i] + [ip];
      KeyFacts(ip);
      var key := PrefixKey(ip);
      ghost var before := b;
      if key.Some? && FamilyOf(key.value) == f {
        var k := key.value;
        if k !in b {
          NoneWithKey(ips[..i], k);
          b := b[k := Some(Bucket(FromStdIP(ip).value, []))];
        }
        b := b[k := Some(b[k].value.(ips := b[k].value.ips + [ip]))];
      }
      forall k | k in b
        ensures RepFrom(ips[..i + 1], k, b[k].value.rep) && b[k].value.ips == WithKey(ips[..i + 1], k)
      {
        RepFromSnoc(ips[..i], ip, k, b[k].value.rep);
        WithKeySnoc(ips[..i], ip, k);
      }
    }
    assert ips[..|ips|] == ips;
    forall i | 0 <= i < |ips| && InFamily(ips[i], f)
      ensures KeyStatus(b, ips[i], !HitBy(done, f, true, ips[i]))
    {
      KeyFacts(ips[i]);
    }
  }

  method BuildPrecise(ips: seq<IP>, f: Family, ghost done: seq<Matcher>) returns (p: map<Addr, Option<IP>>)
    requires !ModeUsed(done, f, false)
    ensures PreciseView(p, ips, f, done)
  {
    hide PrefixKey, FromStdIP, Heuristic, Match;
    p := map[];
    for i := 0 to |ips|
      invariant forall a :: a in p ==> p[a].Some? && p[a].value in ips && FromStdIP(p[a].value) == Some(a) && a.family == f
      invariant forall j :: 0 <= j < i && InFamily(ips[j], f) ==> FromStdIP(ips[j]).value in p
    {
      KeyFacts(ips[i]);
      var key := PrefixKey(ips[i]);
      if key.Some? && FamilyOf(key.value) == f {
        p := p[FromStdIP(ips[i]).value := Some(ips[i])];
      }
    }
  }

  method EnsureFilterView(v: FilterView, heur: bool, ips: seq<IP>, f: Family, ghost done: seq<Matcher>) returns (w: FilterView)
    requires GoodFilterView(v, ips, f, done)
    ensures GoodFilterView(w, ips, f, done)
    ensures w.buckets.Some? <==> v.buckets.Some? || heur
    ensures w.precise.Some? <==> v.precise.Some? || !heur
  {
    w := v;
    if heur && v.buckets.None? {
      var b := BuildBuckets(ips, f, done);
      w := v.(buckets := Some(b));
    } else if !heur && v.precise.None? {
      var p := BuildPrecise(ips, f, done);
      w := v.(precise := Some(p));
    }
  }

  // ---------------------------------------------------------------- one matcher on one family

  /** The IPs of the family that the mode's earlier matchers left. */
  ghost predicate StillHeld(done: seq<Matcher>, f: Family, heur: bool, ip: IP) {
    InFamily(ip, f) && !HitBy(done, f, heur, ip)
  }

  /** What a step adds to the matched list: IPs that m matches, and the address of every one of them
      that its view still held. */
  ghost predicate Taken(m: Matcher, ips: seq<IP>, f: Family, done: seq<Matcher>, heur: bool, more: seq<IP>) {
    && (forall x :: x in more ==> x in ips && Match(m, x))
    && (forall i :: 0 <= i < |ips| && StillHeld(done, f, heur, ips[i]) && Match(m, ips[i]) ==> Lists(more, ips[i]))
  }

  method TakeBuckets(m: Matcher, b: map<Key, Option<Bucket>>, ips: seq<IP>, f: Family, ghost done: seq<Matcher>)
    returns (c: map<Key, Option<Bucket>>, more: seq<IP>)
    requires ValidSet(m.ipset) && Heuristic(m, f) && BucketView(b, ips, f, done)
    ensures BucketView(c, ips, f, done + [m]) && Taken(m, ips, f, done, true, more)
  {
    hide PrefixKey, FromStdIP, WithKey, RepFrom, Heuristic, MatchAddr;
    c, more := b, [];
    var rest := b.Keys;
    while rest != {}
      invariant rest <= b.Keys == c.Keys
      invariant forall k :: k in rest ==> c[k] == b[k]
      invariant forall k :: k in b && k !in rest ==> c[k] == if b[k].Some? && MatchAddr(m, b[k].value.rep) then None else b[k]
      invariant forall x :: x in more <==>
                  x in ips && PrefixKey(x).Some? && PrefixKey(x).value in b && PrefixKey(x).value !in rest
                  && b[PrefixKey(x).value].Some? && MatchAddr(m, b[PrefixKey(x).value].value.rep)
      decreases |rest|
    {
      var k :| k in rest;
      if c[k].Some? {
        WithKeyMembers(ips, k);
        var hit := Lookup(m, c[k].value.rep);
        if hit {
          more := more + c[k].value.ips;
          c := c[k := None];
        }
      }
      rest := rest - {k};
    }
    BucketsTaken(m, b, c, ips, f, done, more);
  }

  lemma BucketsTaken(m: Matcher, b: map<Key, Option<Bucket>>, c: map<Key, Option<Bucket>>, ips: seq<IP>, f: Family,
                     done: seq<Matcher>, more: seq<IP>)
    requires ValidSet(m.ipset) && Heuristic(m, f) && BucketView(b, ips, f, done) && c.Keys == b.Keys
    requires forall k :: k in b ==> c[k] == if b[k].Some? && MatchAddr(m, b[k].value.rep) then None else b[k]
    requires forall x :: x in more <==>
               x in ips && PrefixKey(x).Some? && PrefixKey(x).value in b
               && b[PrefixKey(x).value].Some? && MatchAddr(m, b[PrefixKey(x).value].value.rep)
    ensures BucketView(c, ips, f, done + [m]) && Taken(m, ips, f, done, true, more)
  {
    hide PrefixKey, FromStdIP, WithKey, Heuristic, MatchAddr, Match, HitBy;
    forall x | x in ips && PrefixKey(x).Some? && PrefixKey(x).value in b && b[PrefixKey(x).value].Some?
      ensures Match(m, x) <==> MatchAddr(m, b[PrefixKey(x).value].value.rep)
    {
      RepAlike(m, ips, PrefixKey(x).value, b[PrefixKey(x).value].value.rep, x);
    }
    forall i | 0 <= i < |ips| && InFamily(ips[i], f)
      ensures KeyStatus(c, ips[i], !HitBy(done + [m], f, true, ips[i]))
    {
      assert KeyStatus(b, ips[i], !HitBy(done, f, true, ips[i]));
      HitBySnoc(done, m, f, true, ips[i]);
    }
    forall i | 0 <= i < |ips| && StillHeld(done, f, true, ips[i]) && Match(m, ips[i])
      ensures Lists(more, ips[i])
    {
      assert KeyStatus(b, ips[i], !HitBy(done, f, true, ips[i]));
      assert ips[i] in more;
    }
  }

  lemma RepAlike(m: Matcher, ips: seq<IP>, k: Key, rep: Addr, x: IP)
    requires ValidSet(m.ipset) && Heuristic(m, FamilyOf(k)) && RepFrom(ips, k, rep) && PrefixKey(x) == Some(k)
    ensures Match(m, x) <==> MatchAddr(m, rep)
  {
    var j :| 0 <= j < |ips| && PrefixKey(ips[j]) == Some(k) && FromStdIP(ips[j]) == Some(rep);
    BucketConstant(m, ips[j], x);
  }

  method TakePrecise(m: Matcher, p: map<Addr, Option<IP>>, ips: seq<IP>, f: Family, ghost done: seq<Matcher>)
    returns (q: map<Addr, Option<IP>>, more: seq<IP>)
    requires !Heuristic(m, f) && PreciseView(p, ips, f, done)
    ensures PreciseView(q, ips, f, done + [m]) && Taken(m, ips, f, done, false, more)
  {
    hide FromStdIP, Heuristic, MatchAddr;
    q, more := p, [];
    var rest := p.Keys;
    while rest != {}
      invariant rest <= p.Keys == q.Keys
      invariant forall a :: a in rest ==> q[a] == p[a]
      invariant forall a :: a in p && a !in rest ==> q[a] == if p[a].Some? && MatchAddr(m, a) then None else p[a]
      invariant forall a :: a in p && a !in rest && p[a].Some? && MatchAddr(m, a) ==> p[a].value in more
      invariant forall x :: x in more ==> x in ips && Match(m, x)
      decreases |rest|
    {
      var a :| a in rest;
      if q[a].Some? {
        var hit := Lookup(m, a);
        if hit {
          more := more + [q[a].value];
          q := q[a := None];
        }
      }
      rest := rest - {a};
    }
    PreciseTaken(m, p, q, ips, f, done, more);
  }

  lemma PreciseTaken(m: Matcher, p: map<Addr, Option<IP>>, q: map<Addr, Option<IP>>, ips: seq<IP>, f: Family,
                     done: seq<Matcher>, more: seq<IP>)
    requires !Heuristic(m, f) && PreciseView(p, ips, f, done) && q.Keys == p.Keys
    requires forall a :: a in p ==> q[a] == if p[a].Some? && MatchAddr(m, a) then None else p[a]
    requires forall a :: a in p && p[a].Some? && MatchAddr(m, a) ==> p[a].value in more
    requires forall x :: x in more ==> x in ips && Match(m, x)
    ensures PreciseView(q, ips, f, done + [m]) && Taken(m, ips, f, done, false, more)
  {
    hide FromStdIP, Heuristic, MatchAddr, HitBy;
    forall i | 0 <= i < |ips| && InFamily(ips[i], f)
      ensures AddrStatus(q, ips[i], !HitBy(done + [m], f, false, ips[i]))
      ensures StillHeld(done, f, false, ips[i]) && Match(m, ips[i]) ==> Lists(more, ips[i])
    {
      assert AddrStatus(p, ips[i], !HitBy(done, f, false, ips[i]));
      HitBySnoc(done, m, f, false, ips[i]);
      var a := FromStdIP(ips[i]).value;
      if p[a].Some? && MatchAddr(m, a) {
        var x := p[a].value;
        var j :| 0 <= j < |more| && more[j] == x;
      }
    }
  }

  /** A step of one mode leaves the other mode's view as it was. */
  lemma OtherModeKept(m: Matcher, v: FilterView, ips: seq<IP>, f: Family, done: seq<Matcher>)
    requires GoodFilterView(v, ips, f, done)
    ensures Heuristic(m, f) ==> if v.precise.Some? then PreciseView(v.precise.value, ips, f, done + [m]) else !ModeUsed(done + [m], f, false)
    ensures !Heuristic(m, f) ==> if v.buckets.Some? then BucketView(v.buckets.value, ips, f, done + [m]) else !ModeUsed(done + [m], f, true)
  {
    hide FromStdIP, PrefixKey, Heuristic, Match, HitBy, WithKey, RepFrom;
    forall ip, heur
      ensures heur != Heuristic(m, f) ==> (HitBy(done + [m], f, heur, ip) <==> HitBy(done, f, heur, ip))
      ensures heur != Heuristic(m, f) ==> (ModeUsed(done + [m], f, heur) <==> ModeUsed(done, f, heur))
    {
      HitBySnoc(done, m, f, heur, ip);
    }
  }

  method FilterFamily(m: Matcher, v: FilterView, ips: seq<IP>, f: Family, ghost done: seq<Matcher>)
    returns (w: FilterView, more: seq<IP>)
    requires ValidSet(m.ipset) && GoodFilterView(v, ips, f, done) && OnlyUsed(v, f, done)
    ensures GoodFilterView(w, ips, f, done + [m]) && OnlyUsed(w, f, done + [m])
    ensures Taken(m, ips, f, done, Heuristic(m, f), more)
  {
    hide BucketView, PreciseView, Heuristic, Taken, ModeUsed;
    w := EnsureFilterView(v, Heuristic(m, f), ips, f, done);
    OtherModeKept(m, w, ips, f, done);
    HitBySnoc(done, m, f, true, []);
    HitBySnoc(done, m, f, false, []);
    if Heuristic(m, f) {
      var c;
      c, more := TakeBuckets(m, w.buckets.value, ips, f, done);
      w := w.(buckets := Some(c));
    } else {
      var q;
      q, more := TakePrecise(m, w.precise.value, ips, f, done);
      w := w.(precise := Some(q));
    }
  }

  /** The matched list after `done`: only IPs that match, and all their addresses. */
  ghost predicate MatchedSoFar(ips: seq<IP>, done: seq<Matcher>, matched: seq<IP>) {
    && (forall x :: x in matched ==> x in ips && MatchOne(done, x))
    && (forall i :: 0 <= i < |ips| && MatchOne(done, ips[i]) ==> Lists(matched, ips[i]))
  }

  lemma MatchedStep(m: Matcher, ips: seq<IP>, done: seq<Matcher>, matched: seq<IP>, more4: seq<IP>, more6: seq<IP>)
    requires MatchedSoFar(ips, done, matched)
    requires Taken(m, ips, F4, done, Heuristic(m, F4), more4) && Taken(m, ips, F6, done, Heuristic(m, F6), more6)
    ensures MatchedSoFar(ips, done + [m], matched + more4 + more6)
  {
    hide Heuristic, Lists, FromStdIP, MatchAddr;
    forall x | x in matched + more4 + more6
      ensures x in ips && MatchOne(done + [m], x)
    {
      HitBySnoc(done, m, F4, true, x);
    }
    forall i | 0 <= i < |ips| && MatchOne(done + [m], ips[i])
      ensures Lists(matched + more4 + more6, ips[i])
    {
      HitBySnoc(done, m, F4, true, ips[i]);
      ListsConcat(matched, more4, ips[i]);
      ListsConcat(matched + more4, more6, ips[i]);
      if Match(m, ips[i]) {
        var f := FromStdIP(ips[i]).value.family;
        if !StillHeld(done, f, Heuristic(m, f), ips[i]) {
          var j :| 0 <= j < |done| && Heuristic(done[j], f) == Heuristic(m, f) && Match(done[j], ips[i]);
          assert MatchOne(done, ips[i]);
        }
      }
    }
  }

  // ---------------------------------------------------------------- what is left

  method LeftInBuckets(b: map<Key, Option<Bucket>>, ghost ips: seq<IP>, ghost f: Family, ghost done: seq<Matcher>) returns (xs: seq<IP>)
    requires BucketView(b, ips, f, done)
    ensures forall x :: x in xs ==> x in ips && InFamily(x, f)
    ensures forall i :: 0 <= i < |ips| ==> (Lists(xs, ips[i]) <==> StillHeld(done, f, true, ips[i]))
  {
    hide PrefixKey, FromStdIP, WithKey, RepFrom, Heuristic, Match, HitBy;
    xs := [];
    var rest := b.Keys;
    while rest != {}
      invariant rest <= b.Keys
      invariant forall x :: x in xs <==>
                  x in ips && PrefixKey(x).Some? && PrefixKey(x).value in b && PrefixKey(x).value !in rest
                  && b[PrefixKey(x).value].Some?
      decreases |rest|
    {
      var k :| k in rest;
      if b[k].Some? {
        WithKeyMembers(ips, k);
        xs := xs + b[k].value.ips;
      }
      rest := rest - {k};
    }
    ListsLeft(b, ips, f, done, xs);
  }

  lemma ListsLeft(b: map<Key, Option<Bucket>>, ips: seq<IP>, f: Family, done: seq<Matcher>, xs: seq<IP>)
    requires BucketView(b, ips, f, done)
    requires forall x :: x in xs <==> x in ips && PrefixKey(x).Some? && PrefixKey(x).value in b && b[PrefixKey(x).value].Some?
    ensures forall x :: x in xs ==> x in ips && InFamily(x, f)
    ensures forall i :: 0 <= i < |ips| ==> (Lists(xs, ips[i]) <==> StillHeld(done, f, true, ips[i]))
  {
    hide PrefixKey, FromStdIP, WithKey, RepFrom, Heuristic, Match, HitBy;
    forall x | x in ips
      ensures x in xs <==> StillHeld(done, f, true, x)
    {
      KeyFacts(x);
      var i :| 0 <= i < |ips| && ips[i] == x;
      if InFamily(x, f) {
        assert KeyStatus(b, ips[i], !HitBy(done, f, true, ips[i]));
      }
    }
    forall i | 0 <= i < |ips|
      ensures Lists(xs, ips[i]) <==> StillHeld(done, f, true, ips[i])
    {
      if j :| 0 <= j < |xs| && FromStdIP(xs[j]) == FromStdIP(ips[i]) {
        assert xs[j] in xs;
        SameAddrSameHits(done, f, true, xs[j], ips[i]);
      }
      if StillHeld(done, f, true, ips[i]) {
        assert ips[i] in xs;
      }
    }
  }

  lemma SameAddrSameHits(done: seq<Matcher>, f: Family, heur: bool, x: IP, y: IP)
    requires FromStdIP(x) == FromStdIP(y)
    ensures HitBy(done, f, heur, x) <==> HitBy(done, f, heur, y)
    ensures InFamily(x, f) <==> InFamily(y, f)
  {
    assert forall m :: Match(m, x) <==> Match(m, y);
  }

  method LeftInPrecise(p: map<Addr, Option<IP>>, ghost ips: seq<IP>, ghost f: Family, ghost done: seq<Matcher>) returns (xs: seq<IP>)
    requires PreciseView(p, ips, f, done)
    ensures forall x :: x in xs ==> x in ips && InFamily(x, f)
    ensures forall i :: 0 <= i < |ips| ==> (Lists(xs, ips[i]) <==> StillHeld(done, f, false, ips[i]))
  {
    hide FromStdIP, Heuristic, Match, HitBy;
    xs := [];
    var rest := p.Keys;
    while rest != {}
      invariant rest <= p.Keys
      invariant forall a :: a in p && a !in rest && p[a].Some? ==> p[a].value in xs
      invariant forall x :: x in xs ==> exists a :: a in p && p[a] == Some(x)
      decreases |rest|
    {
      var a :| a in rest;
      if p[a].Some? {
        xs := xs + [p[a].value];
      }
      rest := rest - {a};
    }
    forall i | 0 <= i < |ips|
      ensures Lists(xs, ips[i]) <==> StillHeld(done, f, false, ips[i])
    {
      if InFamily(ips[i], f) {
        assert AddrStatus(p, ips[i], !HitBy(done, f, false, ips[i]));
        var a := FromStdIP(ips[i]).value;
        if p[a].Some? {
          ghost var j :| 0 <= j < |xs| && xs[j] == p[a].value;
        }
      }
      if j :| 0 <= j < |xs| && FromStdIP(xs[j]) == FromStdIP(ips[i]) {
        assert xs[j] in xs;
      }
    }
  }

  /** In some mode that the matchers use for its family, none of them matches the valid IP. */
  ghost predicate Leftover(ms: seq<Matcher>, ip: IP) {
    FromStdIP(ip).Some? &&
    var f := FromStdIP(ip).value.family;
    || (ModeUsed(ms, f, true) && !HitBy(ms, f, true, ip))
    || (ModeUsed(ms, f, false) && !HitBy(ms, f, false, ip))
  }

  method LeftInView(v: FilterView, ghost ips: seq<IP>, ghost f: Family, ghost done: seq<Matcher>) returns (xs: seq<IP>)
    requires GoodFilterView(v, ips, f, done) && OnlyUsed(v, f, done)
    ensures forall x :: x in xs ==> x in ips && InFamily(x, f)
    ensures forall i :: 0 <= i < |ips| ==> (Lists(xs, ips[i]) <==> InFamily(ips[i], f) && Leftover(done, ips[i]))
  {
    hide BucketView, PreciseView, ModeUsed, HitBy, FromStdIP;
    var bs, ps := [], [];
    if v.buckets.Some? {
      bs := LeftInBuckets(v.buckets.value, ips, f, done);
    }
    if v.precise.Some? {
      ps := LeftInPrecise(v.precise.value, ips, f, done);
    }
    xs := bs + ps;
    forall i | 0 <= i < |ips|
      ensures Lists(xs, ips[i]) <==> InFamily(ips[i], f) && Leftover(done, ips[i])
    {
      ListsConcat(bs, ps, ips[i]);
    }
  }

  lemma LeftTogether(ms: seq<Matcher>, ips: seq<IP>, left4: seq<IP>, left6: seq<IP>)
    requires forall x :: x in left4 ==> x in ips && InFamily(x, F4)
    requires forall x :: x in left6 ==> x in ips && InFamily(x, F6)
    requires forall i :: 0 <= i < |ips| ==> (Lists(left4, ips[i]) <==> InFamily(ips[i], F4) && Leftover(ms, ips[i]))
    requires forall i :: 0 <= i < |ips| ==> (Lists(left6, ips[i]) <==> InFamily(ips[i], F6) && Leftover(ms, ips[i]))
    ensures forall x :: x in left4 + left6 ==> x in ips && FromStdIP(x).Some?
    ensures forall i :: 0 <= i < |ips| ==> (Lists(left4 + left6, ips[i]) <==> Leftover(ms, ips[i]))
  {
    hide Lists, FromStdIP, HitBy, ModeUsed;
    forall i | 0 <= i < |ips|
      ensures Lists(left4 + left6, ips[i]) <==> Leftover(ms, ips[i])
    {
      ListsConcat(left4, left6, ips[i]);
    }
  }

  lemma MatchedExactly(ms: seq<Matcher>, ips: seq<IP>, matched: seq<IP>)
    requires MatchedSoFar(ips, ms, matched)
    ensures forall i :: 0 <= i < |ips| ==> (Lists(matched, ips[i]) <==> MatchOne(ms, ips[i]))
  {
    hide FromStdIP, MatchAddr;
    forall i | 0 <= i < |ips| && Lists(matched, ips[i])
      ensures MatchOne(ms, ips[i])
    {
      var j :| 0 <= j < |matched| && FromStdIP(matched[j]) == FromStdIP(ips[i]);
      assert matched[j] in matched;
      var l :| 0 <= l < |ms| && Match(ms[l], matched[j]);
      assert Match(ms[l], ips[i]);
    }
  }

  /** The matched addresses are exactly those some matcher matches. The unmatched ones are exactly those
      left over in some mode; for a single IP, exactly those that no matcher matches. */
  method MultiFilterIPs(ms: seq<Matcher>, ips: seq<IP>) returns (matched: seq<IP>, unmatched: seq<IP>)
    requires ValidSets(ms)
    ensures forall x :: x in matched ==> x in ips && MatchOne(ms, x)
    ensures forall i :: 0 <= i < |ips| ==> (Lists(matched, ips[i]) <==> MatchOne(ms, ips[i]))
    ensures forall x :: x in unmatched ==> x in ips && FromStdIP(x).Some?
    ensures |ips| >= 2 ==> forall i :: 0 <= i < |ips| ==> (Lists(unmatched, ips[i]) <==> Leftover(ms, ips[i]))
    ensures |ips| == 1 ==> (Lists(unmatched, ips[0]) <==> FromStdIP(ips[0]).Some? && !MatchOne(ms, ips[0]))
  {
    if |ips| == 0 {
      return [], [];
    }
    if |ips| == 1 {
      if FromStdIP(ips[0]).None? {
        return [], [];
      }
      var hit := MultiMatch(ms, ips[0]);
      return if hit then ips else [], if hit then [] else ips;
    }
    hide GoodFilterView, Leftover, FromStdIP, Match;
    var v4, v6 := FilterView(None, None), FilterView(None, None);
    matched := [];
    EmptyViews(ips);
    assert ms[..0] == [];
    for i := 0 to |ms|
      invariant GoodFilterView(v4, ips, F4, ms[..i]) && GoodFilterView(v6, ips, F6, ms[..i])
      invariant OnlyUsed(v4, F4, ms[..i]) && OnlyUsed(v6, F6, ms[..i])
      invariant MatchedSoFar(ips, ms[..i], matched)
    {
      assert ms[..i + 1] == ms[..i] + [ms[i]];
      var more4, more6;
      v4, more4 := FilterFamily(ms[i], v4, ips, F4, ms[..i]);
      v6, more6 := FilterFamily(ms[i], v6, ips, F6, ms[..i]);
      MatchedStep(ms[i], ips, ms[..i], matched, more4, more6);
      matched := matched + more4 + more6;
    }
    assert ms[..|ms|] == ms;
    var left4 := LeftInView(v4, ips, F4, ms);
    var left6 := LeftInView(v6, ips, F6, ms);
    unmatched := left4 + left6;
    LeftTogether(ms, ips, left4, left6);
    MatchedExactly(ms, ips, matched);
  }

  // ---------------------------------------------------------------- what the two results mean

  lemma HitIsMatch(ms: seq<Matcher>, ip: IP)
    requires FromStdIP(ip).Some?
    ensures var f := FromStdIP(ip).value.family;
            && (MatchOne(ms, ip) <==> HitBy(ms, f, true, ip) || HitBy(ms, f, false, ip))
            && (ms != [] ==> ModeUsed(ms, f, true) || ModeUsed(ms, f, false))
            && (forall heur :: HitBy(ms, f, heur, ip) ==> ModeUsed(ms, f, heur))
  {
    hide Match;
    var f := FromStdIP(ip).value.family;
    if i :| 0 <= i < |ms| && Match(ms[i], ip) {
      assert HitBy(ms, f, Heuristic(ms[i], f), ip);
    }
    if ms != [] {
      assert ModeUsed(ms, f, Heuristic(ms[0], f));
    }
  }

  /** A valid IP that no matcher matches is never lost, and is in both results exactly when its family
      is answered in two modes and only one of them matches it. */
  lemma OverlapExactly(ms: seq<Matcher>, ip: IP)
    requires FromStdIP(ip).Some? && ms != []
    ensures !MatchOne(ms, ip) ==> Leftover(ms, ip)
    ensures var f := FromStdIP(ip).value.family;
            MatchOne(ms, ip) && Leftover(ms, ip) <==>
            ModeUsed(ms, f, true) && ModeUsed(ms, f, false) && HitBy(ms, f, true, ip) != HitBy(ms, f, false, ip)
  {
    HitIsMatch(ms, ip);
  }

  /** So the results are disjoint when the matchers agree on the mode per family. */
  lemma AgreeingModesPartition(ms: seq<Matcher>, ip: IP)
    requires FromStdIP(ip).Some? && ms != []
    requires forall i, j, f :: 0 <= i < |ms| && 0 <= j < |ms| ==> (Heuristic(ms[i], f) <==> Heuristic(ms[j], f))
    ensures Leftover(ms, ip) <==> !MatchOne(ms, ip)
  {
    OverlapExactly(ms, ip);
  }

  /** They do overlap in practice: a matcher without IPv4 prefixes counts as precise for IPv4, so an
      address that the other one matches by bucket is reported unmatched as well. */
  lemma OverlapExample()
    ensures var four := Matcher(IPSet([Prefix([1, 2, 3, 0], 24)], [], 24, 0xff), false);
            var six := Matcher(IPSet([], [Prefix([0x20, 1, 0, 0, 0, 0, 0, 0, 0, 0, 0, 0, 0, 0, 0, 0], 32)], 0xff, 32), false);
            && ValidSets([four, six])
            && MatchOne([four, six], [1, 2, 3, 4]) && Leftover([four, six], [1, 2, 3, 4])
  {
    var p, ip: IP := Prefix([1, 2, 3, 0], 24), [1, 2, 3, 4];
    var four := Matcher(IPSet([p], [], 24, 0xff), false);
    var six := Matcher(IPSet([], [Prefix([0x20, 1, 0, 0, 0, 0, 0, 0, 0, 0, 0, 0, 0, 0, 0, 0], 32)], 0xff, 32), false);
    var ms := [four, six];
    assert Covers(p, p.bytes);
    assert p.bytes[..3] == ip[..3];
    CoversSame(p, p.bytes, ip, 3);
    assert four.ipset.v4[0] == p && Contains(four.ipset.v4, ip);
    assert Match(ms[0], ip) && !Match(ms[1], ip);
    assert Recorded(four.ipset.v4, 24) && Recorded(four.ipset.v6, 0xff);
    assert Recorded(six.ipset.v4, 0xff) && six.ipset.v6[0].bits == 32 && Recorded(six.ipset.v6, 32);
    assert Heuristic(ms[0], F4) && !Heuristic(ms[1], F4);
    assert ModeUsed(ms, F4, false) && !HitBy(ms, F4, false, ip);
  }
}
