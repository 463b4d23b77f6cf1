/** Several matchers at once: the heuristic multi-matcher against the general one. */
module IpMultiMatcher {
  import opened Bytes
  import opened IpMatcher

  ghost predicate ValidSets(ms: seq<Matcher>) {
    forall i :: 0 <= i < |ms| ==> ValidSet(ms[i].ipset)
  }

  /** Some matcher matches the IP. */
  ghost predicate MatchOne(ms: seq<Matcher>, ip: IP) {
    exists i :: 0 <= i < |ms| && Match(ms[i], ip)
  }

  /** Some valid IP matches some matcher. */
  ghost predicate MatchAny(ms: seq<Matcher>, ips: seq<IP>) {
    exists i :: 0 <= i < |ips| && MatchOne(ms, ips[i])
  }

  /** One and the same matcher matches every IP. */
  ghost predicate MatchAll(ms: seq<Matcher>, ips: seq<IP>) {
    exists i :: 0 <= i < |ms| && AllMatch(ms[i], ips)
  }

  // ---------------------------------------------------------------- GeneralMultiIPMatcher

  method GeneralAnyMatch(ms: seq<Matcher>, ips: seq<IP>) returns (r: bool)
    requires ValidSets(ms)
    ensures r <==> MatchAny(ms, ips)
  {
    for i := 0 to |ms|
      invariant forall j :: 0 <= j < i ==> !SomeMatch(ms[j], ips)
    {
      var hit := IpMatcher.AnyMatch(ms[i], ips);
      if hit {
        ghost var l :| 0 <= l < |ips| && Match(ms[i], ips[l]);
        assert MatchOne(ms, ips[l]);
        return true;
      }
    }
    return false;
  }

  method GeneralMatches(ms: seq<Matcher>, ips: seq<IP>) returns (r: bool)
    requires ValidSets(ms)
    ensures r <==> MatchAll(ms, ips)
  {
    for i := 0 to |ms|
      invariant forall j :: 0 <= j < i ==> !AllMatch(ms[j], ips)
    {
      var hit := IpMatcher.Matches(ms[i], ips);
      if hit {
        return true;
      }
    }
    return false;
  }

  // ---------------------------------------------------------------- HeuristicMultiIPMatcher.AnyMatch

  method MultiMatch(ms: seq<Matcher>, ip: IP) returns (r: bool)
    ensures r <==> MatchOne(ms, ip)
  {
    var a := FromStdIP(ip);
    if a.None? {
      return false;
    }
    for i := 0 to |ms|
      invariant forall j :: 0 <= j < i ==> !Match(ms[j], ip)
    {
      var hit := Lookup(ms[i], a.value);
      if hit {
        return true;
      }
    }
    return false;
  }

  /** An earlier IP with key k matched nothing. */
  ghost predicate SeenBefore(ms: seq<Matcher>, ips: seq<IP>, i: int, k: Key) {
    exists j :: 0 <= j < i <= |ips| && PrefixKey(ips[j]) == Some(k) && !MatchOne(ms, ips[j])
  }

  /** The state of the inner loop: no matcher asked for the key yet, the key is new, or it was seen. */
  datatype KeyState = Unasked | New | Skip(family: Family)

  /** The inner loop for one IP; keys is the set of bucket keys met so far. */
  method AnyMatchOne(ms: seq<Matcher>, ghost ips: seq<IP>, ghost n: nat, ip: IP, keys: set<Key>)
    returns (hit: bool, keys2: set<Key>)
    requires ValidSets(ms) && n < |ips| && ip == ips[n]
    requires forall k :: k in keys ==> SeenBefore(ms, ips, n, k)
    ensures hit <==> MatchOne(ms, ip)
    ensures !hit ==> forall k :: k in keys2 ==> SeenBefore(ms, ips, n + 1, k)
  {
    hide PrefixKey, FromStdIP, MatchAddr, Contains, Heuristic, FamilyOf;
    keys2 := keys;
    KeyFacts(ip);
    var state := Unasked;
    for i := 0 to |ms|
      invariant forall j :: 0 <= j < i ==> !Match(ms[j], ip)
      invariant state.Unasked? ==> keys2 == keys
      invariant state.New? ==> PrefixKey(ip).Some? && keys2 == keys + {PrefixKey(ip).value}
      invariant state.Skip? ==> keys2 == keys && PrefixKey(ip).Some? && PrefixKey(ip).value in keys
                                && state.family == FamilyOf(PrefixKey(ip).value)
    {
      var m := ms[i];
      if state.Unasked? && (Heuristic(m, F4) || Heuristic(m, F6)) {
        var key := PrefixKey(ip);
        if key.None? {
          break;
        }
        if key.value in keys {
          state := Skip(FamilyOf(key.value));
        } else {
          keys2 := keys + {key.value};
          state := New;
        }
      }
      if state.Skip? && Heuristic(m, state.family) {
        ghost var j :| 0 <= j < n && PrefixKey(ips[j]) == PrefixKey(ip) && !MatchOne(ms, ips[j]);
        BucketConstant(m, ips[j], ip);
        continue;
      }
      var a := FromStdIP(ip);
      if a.None? {
        break;
      }
      hit := Lookup(m, a.value);
      if hit {
        return;
      }
    }
    hit := false;
    assert !MatchOne(ms, ip);
    forall k | k in keys2
      ensures SeenBefore(ms, ips, n + 1, k)
    {
      if k in keys {
        var j :| 0 <= j < n <= |ips| && PrefixKey(ips[j]) == Some(k) && !MatchOne(ms, ips[j]);
      } else {
        assert PrefixKey(ips[n]) == Some(k);
      }
    }
  }

  method MultiAnyMatch(ms: seq<Matcher>, ips: seq<IP>) returns (r: bool)
    requires ValidSets(ms)
    ensures r <==> MatchAny(ms, ips)
  {
    if |ips| == 0 {
      return false;
    }
    if |ips| == 1 {
      r := MultiMatch(ms, ips[0]);
      return;
    }
    var keys: set<Key> := {};
    for i := 0 to |ips|
      invariant forall j :: 0 <= j < i ==> !MatchOne(ms, ips[j])
      invariant forall k :: k in keys ==> SeenBefore(ms, ips, i, k)
    {
      var hit;
      hit, keys := AnyMatchOne(ms, ips, i, ips[i], keys);
      if hit {
        return true;
      }
    }
    return false;
  }

  // ---------------------------------------------------------------- HeuristicMultiIPMatcher.Matches

  /** ipViews, one family: the representatives per bucket and the plain addresses, each built once. */
  datatype View = View(buckets: Option<map<Key, Addr>>, precise: Option<seq<Addr>>)

  ghost predicate AllValid(ips: seq<IP>) {
    forall i :: 0 <= i < |ips| ==> FromStdIP(ips[i]).Some?
  }

  ghost predicate InFamily(ip: IP, f: Family) {
    FromStdIP(ip).Some? && FromStdIP(ip).value.family == f
  }

  ghost predicate BucketsOf(b: map<Key, Addr>, ips: seq<IP>, f: Family) {
    && (forall i :: 0 <= i < |ips| && InFamily(ips[i], f) ==> PrefixKey(ips[i]).Some? && PrefixKey(ips[i]).value in b)
    && (forall k :: k in b ==> FamilyOf(k) == f && RepFrom(ips, k, b[k]))
  }

  ghost predicate PreciseOf(p: seq<Addr>, ips: seq<IP>, f: Family) {
    && (forall i :: 0 <= i < |ips| && InFamily(ips[i], f) ==> FromStdIP(ips[i]).value in p)
    && (forall a :: a in p ==> exists i :: 0 <= i < |ips| && InFamily(ips[i], f) && FromStdIP(ips[i]).value == a)
  }

  /** Whatever a view holds covers exactly the IPs of its family. */
  ghost predicate GoodView(v: View, ips: seq<IP>, f: Family) {
    && (v.buckets.Some? ==> BucketsOf(v.buckets.value, ips, f))
    && (v.precise.Some? ==> PreciseOf(v.precise.value, ips, f))
    && (v.buckets.Some? || v.precise.Some? ==> AllValid(ips))
  }

  lemma BucketsSnoc(b: map<Key, Addr>, ips: seq<IP>, ip: IP, f: Family)
    requires BucketsOf(b, ips, f) && FromStdIP(ip).Some?
    ensures !InFamily(ip, f) ==> BucketsOf(b, ips + [ip], f)
    ensures InFamily(ip, f) ==> PrefixKey(ip).Some?
    ensures InFamily(ip, f) ==>
              BucketsOf(if PrefixKey(ip).value in b then b else b[PrefixKey(ip).value := FromStdIP(ip).value], ips + [ip], f)
  {
    hide PrefixKey, FromStdIP, RepFrom;
    KeyFacts(ip);
    forall k, a | RepFrom(ips, k, a) || (PrefixKey(ip) == Some(k) && FromStdIP(ip) == Some(a))
      ensures RepFrom(ips + [ip], k, a)
    {
      RepFromSnoc(ips, ip, k, a);
    }
  }

  lemma PreciseSnoc(p: seq<Addr>, ips: seq<IP>, ip: IP, f: Family)
    requires PreciseOf(p, ips, f) && FromStdIP(ip).Some?
    ensures PreciseOf(if InFamily(ip, f) then p + [FromStdIP(ip).value] else p, ips + [ip], f)
  {
    hide FromStdIP;
    var all := ips + [ip];
    var q := if InFamily(ip, f) then p + [FromStdIP(ip).value] else p;
    forall a | a in q
      ensures exists i :: 0 <= i < |all| && InFamily(all[i], f) && FromStdIP(all[i]).value == a
    {
      if a in p {
        var i :| 0 <= i < |ips| && InFamily(ips[i], f) && FromStdIP(ips[i]).value == a;
        assert all[i] == ips[i];
      } else {
        assert all[|ips|] == ip;
      }
    }
  }

  /** ensureForMatcher, one family: build the view the matcher needs, unless it is there. */
  method EnsureView(v: View, heur: bool, ips: seq<IP>, f: Family) returns (ok: bool, w: View)
    requires GoodView(v, ips, f)
    ensures ok ==> GoodView(w, ips, f) && AllValid(ips) && (if heur then w.buckets.Some? else w.precise.Some?)
    ensures !ok ==> !AllValid(ips)
  {
    hide PrefixKey, FromStdIP, RepFrom;
    ok, w := true, v;
    if (if heur then v.buckets.Some? else v.precise.Some?) {
      return;
    }
    var b: map<Key, Addr> := map[];
    var p: seq<Addr> := [];
    for i := 0 to |ips|
      invariant AllValid(ips[..i])
      invariant heur ==> BucketsOf(b, ips[..i], f)
      invariant !heur ==> PreciseOf(p, ips[..i], f)
    {
      assert ips[..i + 1] == ips[..i] + [ips[i]];
      KeyFacts(ips[i]);
      var key := PrefixKey(ips[i]);
      if key.None? {
        return false, v;
      }
      if heur {
        BucketsSnoc(b, ips[..i], ips[i], f);
      } else {
        PreciseSnoc(p, ips[..i], ips[i], f);
      }
      if FamilyOf(key.value) == f {
        var a := FromStdIP(ips[i]).value;
        if heur {
          if key.value !in b {
            b := b[key.value := a];
          }
        } else {
          p := p + [a];
        }
      }
    }
    assert ips[..|ips|] == ips;
    w := if heur then v.(buckets := Some(b)) else v.(precise := Some(p));
  }

  /** A view decides whether the matcher matches every IP of the family. */
  lemma ViewDecides(m: Matcher, v: View, ips: seq<IP>, f: Family)
    requires ValidSet(m.ipset) && GoodView(v, ips, f) && (if Heuristic(m, f) then v.buckets.Some? else v.precise.Some?)
    ensures (if Heuristic(m, f) then forall k :: k in v.buckets.value ==> MatchAddr(m, v.buckets.value[k])
             else forall a :: a in v.precise.value ==> MatchAddr(m, a)) <==>
            forall i :: 0 <= i < |ips| && InFamily(ips[i], f) ==> Match(m, ips[i])
  {
    if Heuristic(m, f) {
      var b := v.buckets.value;
      forall i | 0 <= i < |ips| && InFamily(ips[i], f)
        ensures PrefixKey(ips[i]).Some? && PrefixKey(ips[i]).value in b
        ensures Match(m, ips[i]) <==> MatchAddr(m, b[PrefixKey(ips[i]).value])
      {
        KeyFacts(ips[i]);
        var k := PrefixKey(ips[i]).value;
        var j :| 0 <= j < |ips| && PrefixKey(ips[j]) == Some(k) && FromStdIP(ips[j]) == Some(b[k]);
        BucketConstant(m, ips[j], ips[i]);
      }
      forall k | k in b
        ensures exists i :: 0 <= i < |ips| && InFamily(ips[i], f) && PrefixKey(ips[i]) == Some(k)
      {
        var j :| 0 <= j < |ips| && PrefixKey(ips[j]) == Some(k) && FromStdIP(ips[j]) == Some(b[k]);
        KeyFacts(ips[j]);
      }
    }
  }

  method FamilyMatches(m: Matcher, v: View, ghost ips: seq<IP>, f: Family) returns (r: bool)
    requires ValidSet(m.ipset) && GoodView(v, ips, f) && (if Heuristic(m, f) then v.buckets.Some? else v.precise.Some?)
    ensures r <==> forall i :: 0 <= i < |ips| && InFamily(ips[i], f) ==> Match(m, ips[i])
  {
    ViewDecides(m, v, ips, f);
    if Heuristic(m, f) {
      r := AllRepsMatch(m, v.buckets.value);
    } else {
      r := AllAddrsMatch(m, v.precise.value);
    }
  }

  method MultiMatches(ms: seq<Matcher>, ips: seq<IP>) returns (r: bool)
    requires ValidSets(ms)
    ensures r <==> MatchAll(ms, ips)
  {
    hide PrefixKey, FromStdIP, RepFrom, Heuristic, MatchAddr;
    if |ips| == 0 {
      return false;
    }
    if |ips| == 1 {
      r := MultiMatch(ms, ips[0]);
      assert forall i :: 0 <= i < |ms| ==> (AllMatch(ms[i], ips) <==> Match(ms[i], ips[0]));
      return;
    }
    var v4, v6 := View(None, None), View(None, None);
    for i := 0 to |ms|
      invariant GoodView(v4, ips, F4) && GoodView(v6, ips, F6)
      invariant forall j :: 0 <= j < i ==> !AllMatch(ms[j], ips)
    {
      var m := ms[i];
      var ok4, ok6;
      ok4, v4 := EnsureView(v4, Heuristic(m, F4), ips, F4);
      if !ok4 {
        return false;
      }
      ok6, v6 := EnsureView(v6, Heuristic(m, F6), ips, F6);
      if !ok6 {
        return false;
      }
      var hit4 := FamilyMatches(m, v4, ips, F4);
      if hit4 {
        var hit6 := FamilyMatches(m, v6, ips, F6);
        if hit6 {
          FamiliesTogether(m, ips);
          return true;
        }
      }
    }
    return false;
  }

  lemma FamiliesTogether(m: Matcher, ips: seq<IP>)
    requires AllValid(ips) && ips != []
    requires forall i :: 0 <= i < |ips| && InFamily(ips[i], F4) ==> Match(m, ips[i])
    requires forall i :: 0 <= i < |ips| && InFamily(ips[i], F6) ==> Match(m, ips[i])
    ensures AllMatch(m, ips)
  {
    hide Match;
  }
}
