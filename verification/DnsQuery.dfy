/** Parallel DNS lookup: a race between groups of equivalent servers whose outcome depends on the
    replies and not on the order in which they arrive. */
module DnsQuery {
  import opened Bytes

  /** An error, perhaps wrapped around another. */
  datatype Error = EmptyResponse | RecordNotFound | Failure(code: int) | Wrapped(code: int, inner: Error)

  /** errors.Is: the target is the error or one that it wraps. */
  predicate Is(e: Error, target: Error) {
    e == target || (e.Wrapped? && Is(e.inner, target))
  }

  datatype Reply = Reply(ips: seq<int>, ttl: nat, err: Option<Error>)

  predicate Success(r: Reply) {
    r.err.None? && r.ips != []
  }

  /** The error that a failed reply contributes. */
  function ErrorOf(r: Reply): Error {
    if r.err.Some? then r.err.value else EmptyResponse
  }

  function Errors(rs: seq<Reply>): seq<Error> {
    seq(|rs|, i requires 0 <= i < |rs| => ErrorOf(rs[i]))
  }

  // ---------------------------------------------------------------- makeGroups

  datatype Group = Group(start: nat, end: nat)

  predicate InGroup(g: Group, i: int) {
    g.start <= i <= g.end
  }

  /** Consecutive runs of equal policy that cover the first n clients. */
  ghost predicate Runs(policy: seq<int>, groups: seq<Group>, n: nat) {
    && n <= |policy|
    && (groups == [] <==> n == 0)
    && (groups != [] ==> groups[0].start == 0 && groups[|groups| - 1].end == n - 1)
    && (forall g :: 0 <= g < |groups| ==> groups[g].start <= groups[g].end < n)
    && (forall g :: 0 < g < |groups| ==> groups[g].start == groups[g - 1].end + 1)
    && (forall g, i :: 0 <= g < |groups| && InGroup(groups[g], i) ==> policy[i] == policy[groups[g].start])
  }

  /** The runs are maximal: neighbours differ. */
  ghost predicate Maximal(policy: seq<int>, groups: seq<Group>) {
    && (forall g :: 0 <= g < |groups| ==> groups[g].start <= groups[g].end < |policy|)
    && (forall g :: 0 < g < |groups| ==> policy[groups[g - 1].start] != policy[groups[g].start])
  }

  ghost predicate Indexed(groups: seq<Group>, groupOf: seq<nat>, n: nat) {
    n <= |groupOf| && forall i :: 0 <= i < n ==> groupOf[i] < |groups| && InGroup(groups[groupOf[i]], i)
  }

  lemma GroupsOrdered(policy: seq<int>, groups: seq<Group>)
    requires Runs(policy, groups, |policy|)
    ensures forall g, h :: 0 <= g < h < |groups| ==> groups[g].end < groups[h].start
  {
    forall g, h | 0 <= g < h < |groups|
      ensures groups[g].end < groups[h].start
    {
      LaterGroup(policy, groups, g, h);
    }
  }

  lemma {:induction false} LaterGroup(policy: seq<int>, groups: seq<Group>, g: nat, h: nat)
    requires Runs(policy, groups, |policy|) && g < h < |groups|
    ensures groups[g].end < groups[h].start
    decreases h
  {
    if g < h - 1 {
      LaterGroup(policy, groups, g, h - 1);
    }
  }

  /** The clients split into the maximal runs of equal policyID, each client with its run. */
  method MakeGroups(policy: seq<int>) returns (groups: seq<Group>, groupOf: seq<nat>)
    ensures Runs(policy, groups, |policy|) && Maximal(policy, groups)
    ensures |groupOf| == |policy| && Indexed(groups, groupOf, |policy|)
  {
    var n := |policy|;
    if n == 0 {
      return [], [];
    }
    groups := [];
    groupOf := seq(n, i => 0);
    var s, e := 0, 0;
    for i := 1 to n
      invariant 0 <= s <= e == i - 1 && |groupOf| == n
      invariant Runs(policy, groups, s) && Maximal(policy, groups) && Indexed(groups, groupOf, s)
      invariant forall k :: s <= k <= e ==> policy[k] == policy[s]
      invariant groups != [] ==> policy[groups[|groups| - 1].start] != policy[s]
    {
      if policy[i - 1] == policy[i] {
        e := i;
      } else {
        groups, groupOf := CloseGroup(policy, groups, groupOf, s, e);
        s, e := i, i;
      }
    }
    groups, groupOf := CloseGroup(policy, groups, groupOf, s, e);
  }

  method CloseGroup(ghost policy: seq<int>, groups: seq<Group>, groupOf: seq<nat>, s: nat, e: nat)
    returns (groups2: seq<Group>, groupOf2: seq<nat>)
    requires s <= e < |policy| == |groupOf|
    requires Runs(policy, groups, s) && Maximal(policy, groups) && Indexed(groups, groupOf, s)
    requires forall k :: s <= k <= e ==> policy[k] == policy[s]
    requires groups != [] ==> policy[groups[|groups| - 1].start] != policy[s]
    ensures |groupOf2| == |groupOf| && groups2 == groups + [Group(s, e)]
    ensures Runs(policy, groups2, e + 1) && Maximal(policy, groups2) && Indexed(groups2, groupOf2, e + 1)
  {
    hide Runs, Maximal, Indexed;
    groupOf2 := groupOf;
    for k := s to e + 1
      invariant |groupOf2| == |groupOf|
      invariant forall j :: 0 <= j < s ==> groupOf2[j] == groupOf[j]
      invariant forall j :: s <= j < k ==> groupOf2[j] == |groups|
    {
      groupOf2 := groupOf2[k := |groups|];
    }
    groups2 := groups + [Group(s, e)];
    RunsSnoc(policy, groups, s, e);
    IndexedSnoc(groups, groupOf, groupOf2, s, e);
  }

  lemma RunsSnoc(policy: seq<int>, groups: seq<Group>, s: nat, e: nat)
    requires s <= e < |policy| && Runs(policy, groups, s) && Maximal(policy, groups)
    requires forall k :: s <= k <= e ==> policy[k] == policy[s]
    requires groups != [] ==> policy[groups[|groups| - 1].start] != policy[s]
    ensures Runs(policy, groups + [Group(s, e)], e + 1) && Maximal(policy, groups + [Group(s, e)])
  {
    var all := groups + [Group(s, e)];
    forall g, i | 0 <= g < |all| && InGroup(all[g], i)
      ensures 0 <= i < |policy| && policy[i] == policy[all[g].start]
    {
      if g < |groups| {
        assert all[g] == groups[g];
      }
    }
  }

  lemma IndexedSnoc(groups: seq<Group>, before: seq<nat>, after: seq<nat>, s: nat, e: nat)
    requires s <= e < |before| == |after| && Indexed(groups, before, s)
    requires forall j :: 0 <= j < s ==> after[j] == before[j]
    requires forall j :: s <= j <= e ==> after[j] == |groups|
    ensures Indexed(groups + [Group(s, e)], after, e + 1)
  {
  }

  // ---------------------------------------------------------------- parallelQuery

  datatype Answer = Answered(ips: seq<int>, ttl: nat, who: nat) | NoAnswer(errs: seq<Error>)

  /** The outcome that the replies fix: the earliest group with a success answers, by any of its
      successful members; without a success all errors are reported in client order. */
  ghost predicate Decided(rs: seq<Reply>, groups: seq<Group>, a: Answer) {
    match a
    case NoAnswer(errs) => (forall i :: 0 <= i < |rs| ==> !Success(rs[i])) && errs == Errors(rs)
    case Answered(ips, ttl, who) =>
      && who < |rs| && Success(rs[who]) && ips == rs[who].ips && ttl == rs[who].ttl
      && exists g :: 0 <= g < |groups| && InGroup(groups[g], who)
                     && forall i :: 0 <= i < groups[g].start && i < |rs| ==> !Success(rs[i])
  }

  /** Clients lo..hi whose reply has not come. */
  function Missing(results: seq<Option<Reply>>, lo: nat, hi: nat): nat
    requires lo <= hi <= |results|
    decreases hi - lo
  {
    if lo == hi then 0 else (if results[hi - 1].None? then 1 else 0) + Missing(results, lo, hi - 1)
  }

  lemma {:induction false} MissingUpdate(results: seq<Option<Reply>>, lo: nat, hi: nat, i: nat, r: Reply)
    requires lo <= hi <= |results| && i < |results| && results[i].None?
    ensures Missing(results[i := Some(r)], lo, hi) == Missing(results, lo, hi) - if lo <= i < hi then 1 else 0
    decreases hi - lo
  {
    if lo < hi {
      MissingUpdate(results, lo, hi - 1, i, r);
    }
  }

  lemma {:induction false} MissingZero(results: seq<Option<Reply>>, lo: nat, hi: nat)
    requires lo <= hi <= |results|
    ensures Missing(results, lo, hi) == 0 <==> forall i :: lo <= i < hi ==> results[i].Some?
    decreases hi - lo
  {
    if lo < hi {
      MissingZero(results, lo, hi - 1);
    }
  }

  lemma {:induction false} MissingAll(results: seq<Option<Reply>>, lo: nat, hi: nat)
    requires lo <= hi <= |results| && forall i :: lo <= i < hi ==> results[i].None?
    ensures Missing(results, lo, hi) == hi - lo
    decreases hi - lo
  {
    if lo < hi {
      MissingAll(results, lo, hi - 1);
    }
  }

  /** Every client replies once, in any order. */
  ghost predicate Arrivals(order: seq<nat>, n: nat) {
    && |order| == n
    && (forall i :: 0 <= i < n ==> order[i] < n)
    && (forall i, j :: 0 <= i < j < n ==> order[i] != order[j])
  }

  ghost function UpTo(n: nat): (s: set<nat>)
    ensures |s| == n && forall i: nat :: i in s <==> i < n
  {
    if n == 0 then {} else UpTo(n - 1) + {n - 1}
  }

  ghost function Taken(order: seq<nat>): set<nat> {
    set i | 0 <= i < |order| :: order[i]
  }

  lemma {:induction false} DistinctCount(order: seq<nat>)
    requires forall i, j :: 0 <= i < j < |order| ==> order[i] != order[j]
    ensures |Taken(order)| == |order|
    decreases order
  {
    if order != [] {
      var n := |order| - 1;
      var front := order[..n];
      DistinctCount(front);
      assert order[n] !in Taken(front);
      forall x | x in Taken(order)
        ensures x in Taken(front) + {order[n]}
      {
        var i :| 0 <= i < |order| && order[i] == x;
        if i < n {
          assert front[i] == x;
        }
      }
      assert Taken(order) == Taken(front) + {order[n]};
    }
  }

  /** A sequence of n distinct numbers below n misses none. */
  lemma ArrivalsCover(order: seq<nat>, n: nat, x: nat)
    requires Arrivals(order, n) && x < n
    ensures x in order
  {
    DistinctCount(order);
    assert Taken(order) <= UpTo(n);
    SubsetFull(Taken(order), UpTo(n));
    assert x in Taken(order);
  }

  lemma SubsetFull(a: set<nat>, b: set<nat>)
    requires a <= b && |a| == |b|
    ensures a == b
  {
    assert b == a + (b - a);
  }

  /** The replies that have come are the clients' own. */
  ghost predicate Collected(rs: seq<Reply>, results: seq<Option<Reply>>, order: seq<nat>, t: nat) {
    && |results| == |rs| && t <= |order|
    && (forall i :: 0 <= i < |rs| && results[i].Some? ==> results[i].value == rs[i])
    && (forall i :: 0 <= i < |rs| ==> (results[i].Some? <==> i in order[..t]))
  }

  ghost predicate Counted(groups: seq<Group>, results: seq<Option<Reply>>, pending: seq<int>) {
    && |pending| == |groups|
    && (forall g :: 0 <= g < |groups| ==> groups[g].start <= groups[g].end < |results|)
    && (forall g :: 0 <= g < |groups| ==> pending[g] == Missing(results, groups[g].start, groups[g].end + 1))
  }

  function GroupStart(groups: seq<Group>, g: nat, n: nat): nat {
    if g < |groups| then groups[g].start else n
  }

  /** The groups before nextGroup are complete, all their replies are failures, and errs lists them. */
  ghost predicate Passed(rs: seq<Reply>, groups: seq<Group>, results: seq<Option<Reply>>, nextGroup: nat, errs: seq<Error>) {
    && nextGroup <= |groups| && |results| == |rs|
    && GroupStart(groups, nextGroup, |rs|) <= |rs|
    && (forall i :: 0 <= i < GroupStart(groups, nextGroup, |rs|) ==> results[i].Some? && !Success(rs[i]))
    && errs == Errors(rs[..GroupStart(groups, nextGroup, |rs|)])
  }

  /** A reply of the group that has come and is a success. */
  method GroupSuccess(g: Group, results: seq<Option<Reply>>) returns (j: Option<nat>)
    requires g.start <= g.end < |results|
    ensures j.Some? ==> InGroup(g, j.value) && results[j.value].Some? && Success(results[j.value].value)
    ensures j.None? ==> forall i :: InGroup(g, i) && results[i].Some? ==> !Success(results[i].value)
  {
    for k := g.start to g.end + 1
      invariant forall i :: g.start <= i < k && results[i].Some? ==> !Success(results[i].value)
    {
      if results[k].Some? && Success(results[k].value) {
        return Some(k);
      }
    }
    return None;
  }

  method GroupErrors(g: Group, results: seq<Option<Reply>>, ghost rs: seq<Reply>, errs: seq<Error>) returns (more: seq<Error>)
    requires g.start <= g.end < |results| == |rs| && errs == Errors(rs[..g.start])
    requires forall i :: InGroup(g, i) ==> results[i] == Some(rs[i])
    ensures more == Errors(rs[..g.end + 1])
  {
    more := errs;
    for k := g.start to g.end + 1
      invariant more == Errors(rs[..k])
    {
      more := more + [ErrorOf(results[k].value)];
      assert Errors(rs[..k + 1]) == Errors(rs[..k]) + [ErrorOf(rs[k])];
    }
  }

  /** The scan after an arrival: an answer, or the next group that is still open. */
  method Advance(ghost rs: seq<Reply>, ghost policy: seq<int>, groups: seq<Group>, results: seq<Option<Reply>>, pending: seq<int>,
                 nextGroup: nat, errs: seq<Error>)
    returns (a: Option<Answer>, next: nat, errs2: seq<Error>)
    requires |policy| == |rs| == |results| && Runs(policy, groups, |rs|) && Counted(groups, results, pending)
    requires forall i :: 0 <= i < |rs| && results[i].Some? ==> results[i].value == rs[i]
    requires Passed(rs, groups, results, nextGroup, errs)
    ensures a.Some? ==> Decided(rs, groups, a.value)
    ensures a.None? ==> Passed(rs, groups, results, next, errs2)
    ensures a.None? && next < |groups| ==> |pending| == |groups| && pending[next] > 0
  {
    next, errs2 := nextGroup, errs;
    while next < |groups|
      invariant Passed(rs, groups, results, next, errs2)
      decreases |groups| - next
    {
      var g := groups[next];
      var j := GroupSuccess(g, results);
      if j.Some? {
        var r := results[j.value].value;
        a := Some(Answered(r.ips, r.ttl, j.value));
        assert InGroup(groups[next], j.value);
        return;
      }
      if pending[next] > 0 {
        return None, next, errs2;
      }
      MissingZero(results, g.start, g.end + 1);
      errs2 := GroupErrors(g, results, rs, errs2);
      next := next + 1;
      assert GroupStart(groups, next, |rs|) == g.end + 1;
    }
    a := None;
  }

  lemma CollectedStep(rs: seq<Reply>, results: seq<Option<Reply>>, order: seq<nat>, t: nat)
    requires Arrivals(order, |rs|) && t < |order| && Collected(rs, results, order, t)
    ensures results[order[t]].None? && Collected(rs, results[order[t] := Some(rs[order[t]])], order, t + 1)
  {
    assert order[..t + 1] == order[..t] + [order[t]];
  }

  lemma PassedStep(rs: seq<Reply>, groups: seq<Group>, results: seq<Option<Reply>>, nextGroup: nat, errs: seq<Error>, i: nat)
    requires Passed(rs, groups, results, nextGroup, errs) && i < |rs|
    ensures Passed(rs, groups, results[i := Some(rs[i])], nextGroup, errs)
  {
  }

  /** When all have come no group is open. */
  lemma AllArrived(rs: seq<Reply>, groups: seq<Group>, results: seq<Option<Reply>>, pending: seq<int>, order: seq<nat>,
                   nextGroup: nat, errs: seq<Error>)
    requires Arrivals(order, |rs|) && Collected(rs, results, order, |order|) && Counted(groups, results, pending)
    requires Passed(rs, groups, results, nextGroup, errs)
    requires nextGroup < |groups| ==> pending[nextGroup] > 0
    ensures Decided(rs, groups, NoAnswer(errs))
  {
    assert order[..|order|] == order;
    forall i | 0 <= i < |rs|
      ensures results[i].Some?
    {
      ArrivalsCover(order, |rs|, i);
    }
    if nextGroup < |groups| {
      MissingZero(results, groups[nextGroup].start, groups[nextGroup].end + 1);
    }
    assert rs[..|rs|] == rs;
  }

  /** Whatever the order of arrival, the outcome is one that the replies fix. */
  method ParallelQuery(policy: seq<int>, rs: seq<Reply>, order: seq<nat>) returns (a: Answer, groups: seq<Group>)
    requires |policy| == |rs| && Arrivals(order, |rs|)
    ensures Runs(policy, groups, |policy|) && Maximal(policy, groups)
    ensures Decided(rs, groups, a)
  {
    hide Maximal, Indexed, Decided, Success, Passed, Counted;
    var groupOf;
    groups, groupOf := MakeGroups(policy);
    GroupsOrdered(policy, groups);
    var results: seq<Option<Reply>> := seq(|rs|, i => None);
    var pending := CountAll(groups, results);
    var nextGroup: nat := 0;
    var errs: seq<Error> := [];
    NothingPassed(rs, groups, results);
    for t := 0 to |order|
      invariant Collected(rs, results, order, t) && Counted(groups, results, pending)
      invariant Passed(rs, groups, results, nextGroup, errs)
      invariant t > 0 && nextGroup < |groups| ==> nextGroup < |pending| && pending[nextGroup] > 0
    {
      var i := order[t];
      CollectedStep(rs, results, order, t);
      pending := Arrived(groups, groupOf, results, pending, i, rs[i]);
      PassedStep(rs, groups, results, nextGroup, errs, i);
      results := results[i := Some(rs[i])];
      var answer;
      answer, nextGroup, errs := Advance(rs, policy, groups, results, pending, nextGroup, errs);
      if answer.Some? {
        return answer.value, groups;
      }
    }
    AllArrived(rs, groups, results, pending, order, nextGroup, errs);
    a := NoAnswer(errs);
  }

  lemma NothingPassed(rs: seq<Reply>, groups: seq<Group>, results: seq<Option<Reply>>)
    requires |results| == |rs| && GroupStart(groups, 0, |rs|) == 0
    ensures Passed(rs, groups, results, 0, [])
  {
    assert Errors(rs[..0]) == [];
  }

  method CountAll(groups: seq<Group>, results: seq<Option<Reply>>) returns (pending: seq<int>)
    requires forall i :: 0 <= i < |results| ==> results[i].None?
    requires forall g :: 0 <= g < |groups| ==> groups[g].start <= groups[g].end < |results|
    ensures Counted(groups, results, pending)
  {
    pending := [];
    for g := 0 to |groups|
      invariant |pending| == g
      invariant forall h :: 0 <= h < g ==> pending[h] == Missing(results, groups[h].start, groups[h].end + 1)
    {
      MissingAll(results, groups[g].start, groups[g].end + 1);
      pending := pending + [groups[g].end - groups[g].start + 1];
    }
  }

  /** pending[gi]-- */
  method Arrived(groups: seq<Group>, groupOf: seq<nat>, ghost results: seq<Option<Reply>>, pending: seq<int>, i: nat, ghost r: Reply)
    returns (pending2: seq<int>)
    requires Counted(groups, results, pending) && i < |results| == |groupOf| && results[i].None?
    requires Indexed(groups, groupOf, |groupOf|)
    requires forall g, h :: 0 <= g < h < |groups| ==> groups[g].end < groups[h].start
    ensures Counted(groups, results[i := Some(r)], pending2)
  {
    var gi := groupOf[i];
    pending2 := pending[gi := pending[gi] - 1];
    forall g | 0 <= g < |groups|
      ensures pending2[g] == Missing(results[i := Some(r)], groups[g].start, groups[g].end + 1)
    {
      MissingUpdate(results, groups[g].start, groups[g].end + 1, i, r);
      assert InGroup(groups[gi], i);
    }
  }

  /** Two runs over the same replies differ at most in which member of one group answers: they succeed
      together, exactly when some client does, from the same group, and fail with the same errors. */
  lemma OrderDoesNotMatter(policy: seq<int>, rs: seq<Reply>, groups: seq<Group>, a: Answer, b: Answer)
    requires |policy| == |rs| && Runs(policy, groups, |policy|) && Decided(rs, groups, a) && Decided(rs, groups, b)
    ensures a.Answered? <==> exists i :: 0 <= i < |rs| && Success(rs[i])
    ensures a.Answered? <==> b.Answered?
    ensures a.NoAnswer? ==> a == b
    ensures a.Answered? ==> exists g :: 0 <= g < |groups| && InGroup(groups[g], a.who) && InGroup(groups[g], b.who)
    ensures a.Answered? ==> policy[a.who] == policy[b.who]
  {
    if a.Answered? && b.Answered? {
      var g :| 0 <= g < |groups| && InGroup(groups[g], a.who) && forall i :: 0 <= i < groups[g].start && i < |rs| ==> !Success(rs[i]);
      var h :| 0 <= h < |groups| && InGroup(groups[h], b.who) && forall i :: 0 <= i < groups[h].start && i < |rs| ==> !Success(rs[i]);
      if g < h {
        LaterGroup(policy, groups, g, h);
      } else if h < g {
        LaterGroup(policy, groups, h, g);
      }
    }
  }

  // ---------------------------------------------------------------- serialQuery

  /** A client as both query modes see it: skipped (FakeDNS while disabled) or with its reply. */
  datatype Client = Client(skipped: bool, reply: Reply)

  /** What the parallel mode puts on the channel. */
  function ParallelReply(c: Client): Reply {
    if c.skipped then Reply([], 0, Some(EmptyResponse)) else c.reply
  }

  function ParallelReplies(cs: seq<Client>): seq<Reply> {
    seq(|cs|, i requires 0 <= i < |cs| => ParallelReply(cs[i]))
  }

  /** The serial mode takes any reply that carries addresses; it does not look at the error. */
  predicate SerialHit(c: Client) {
    !c.skipped && c.reply.ips != []
  }

  function SerialErrors(cs: seq<Client>): seq<Error> {
    if cs == [] then []
    else SerialErrors(cs[..|cs| - 1]) + (if cs[|cs| - 1].skipped then [] else [ErrorOf(cs[|cs| - 1].reply)])
  }

  method SerialQuery(cs: seq<Client>) returns (a: Answer)
    ensures Serial(cs, a)
  {
    var errs: seq<Error> := [];
    for i := 0 to |cs|
      invariant errs == SerialErrors(cs[..i])
      invariant forall j :: 0 <= j < i ==> !SerialHit(cs[j])
    {
      assert cs[..i + 1][..i] == cs[..i];
      if cs[i].skipped {
        continue;
      }
      if |cs[i].reply.ips| > 0 {
        return Answered(cs[i].reply.ips, cs[i].reply.ttl, i);
      }
      errs := errs + [if cs[i].reply.err.Some? then cs[i].reply.err.value else EmptyResponse];
    }
    assert cs[..|cs|] == cs;
    return NoAnswer(errs);
  }

  /** Lists of IPs split into matching and not matching. */
  type Filter = seq<int> -> (seq<int>, seq<int>)

  datatype Rules = Rules(expected: Option<Filter>, actPrior: bool, unexpected: Option<Filter>, actUnprior: bool)

  /** A preference: only what the filter leaves, unless nothing is left. */
  function Prefer(ips: seq<int>, preferred: seq<int>): seq<int> {
    if preferred == [] then ips else preferred
  }

  /** Client.QueryIP: what a client makes of its server's reply. IPs and an error exclude each other,
      and there is always one of the two. */
  function QueryIP(enabled: bool, server: Reply, rules: Rules): (r: Reply)
    ensures r.ips != [] <==> r.err.None?
  {
    var empty := Reply([], 0, Some(EmptyResponse));
    if !enabled then empty
    else if server.err.Some? then Reply([], 0, server.err)
    else if server.ips == [] then empty
    else
      var a := if rules.expected.Some? && !rules.actPrior then rules.expected.value(server.ips).0 else server.ips;
      if a == [] then empty
      else
        var b := if rules.unexpected.Some? && !rules.actUnprior then rules.unexpected.value(a).1 else a;
        if b == [] then empty
        else
          var c := if rules.expected.Some? && rules.actPrior then Prefer(b, rules.expected.value(b).0) else b;
          var d := if rules.unexpected.Some? && rules.actUnprior then Prefer(c, rules.unexpected.value(c).1) else c;
          Reply(d, server.ttl, None)
  }

  function Count(ips: seq<int>, x: int): nat {
    multiset(ips)[x]
  }

  lemma CountIn(ips: seq<int>, x: int)
    ensures x in ips <==> Count(ips, x) > 0
  {
  }

  /** ips are those of `from` that satisfy p, repetitions kept. */
  ghost predicate AreThose(ips: seq<int>, from: seq<int>, p: int -> bool) {
    forall x :: Count(ips, x) == if p(x) then Count(from, x) else 0
  }

  /** The filter sorts by p, repetitions kept. */
  ghost predicate SplitsBy(f: Filter, p: int -> bool) {
    forall ips :: Splits(f(ips), ips, p)
  }

  ghost predicate Splits(parts: (seq<int>, seq<int>), ips: seq<int>, p: int -> bool) {
    AreThose(parts.0, ips, p) && AreThose(parts.1, ips, x => !p(x))
  }

  lemma FilterKeeps(f: Filter, e: int -> bool, ips: seq<int>, from: seq<int>, p: int -> bool)
    requires SplitsBy(f, e) && AreThose(ips, from, p)
    ensures AreThose(f(ips).0, from, x => p(x) && e(x)) && AreThose(f(ips).1, from, x => p(x) && !e(x))
  {
    hide Count;
    forall x
      ensures Count(f(ips).0, x) == (if p(x) && e(x) then Count(from, x) else 0)
      ensures Count(f(ips).1, x) == (if p(x) && !e(x) then Count(from, x) else 0)
    {
      assert Splits(f(ips), ips, e);
    }
  }

  lemma SomeOfThose(ips: seq<int>, from: seq<int>, p: int -> bool)
    requires AreThose(ips, from, p)
    ensures ips != [] <==> exists y :: y in from && p(y)
  {
    hide Count;
    if ips != [] {
      CountIn(ips, ips[0]);
      CountIn(from, ips[0]);
    }
    if y :| y in from && p(y) {
      CountIn(from, y);
      CountIn(ips, y);
    }
  }

  /** The strict rules: an expected filter lets only what it matches pass, an unexpected one only the rest. */
  predicate Allowed(rules: Rules, e: int -> bool, u: int -> bool, x: int) {
    (rules.expected.Some? && !rules.actPrior ==> e(x)) && (rules.unexpected.Some? && !rules.actUnprior ==> !u(x))
  }

  /** Which IPs a client returns, in terms of what the two filters match: those allowed by the strict rules; of
      them, with a preference for expected ones, only expected ones if there are any; and of those, with a
      preference against unexpected ones, only the others if there are any. The TTL is the server's. */
  lemma QueryIPExactly(enabled: bool, server: Reply, rules: Rules, e: int -> bool, u: int -> bool)
    requires rules.expected.Some? ==> SplitsBy(rules.expected.value, e)
    requires rules.unexpected.Some? ==> SplitsBy(rules.unexpected.value, u)
    ensures var r := QueryIP(enabled, server, rules);
            var prior := rules.expected.Some? && rules.actPrior &&
                         exists y :: y in server.ips && Allowed(rules, e, u, y) && e(y);
            var unprior := rules.unexpected.Some? && rules.actUnprior &&
                           exists y :: y in server.ips && Allowed(rules, e, u, y) && (prior ==> e(y)) && !u(y);
            && (r.err.None? <==> enabled && server.err.None? && exists y :: y in server.ips && Allowed(rules, e, u, y))
            && (r.err.Some? ==> r.err == if enabled && server.err.Some? then server.err else Some(EmptyResponse))
            && (r.err.None? ==>
                  && r.ttl == server.ttl
                  && AreThose(r.ips, server.ips, x => Allowed(rules, e, u, x) && (prior ==> e(x)) && (unprior ==> !u(x))))
  {
    hide SplitsBy, Count;
    if enabled && server.err.None? {
      var all := server.ips;
      var p: int -> bool := x => rules.expected.Some? && !rules.actPrior ==> e(x);
      var q: int -> bool := x => Allowed(rules, e, u, x);
      var a := if rules.expected.Some? && !rules.actPrior then rules.expected.value(all).0 else all;
      assert AreThose(all, all, x => true);
      if rules.expected.Some? {
        FilterKeeps(rules.expected.value, e, all, all, x => true);
      }
      assert AreThose(a, all, p);
      var b := if rules.unexpected.Some? && !rules.actUnprior then rules.unexpected.value(a).1 else a;
      if rules.unexpected.Some? {
        FilterKeeps(rules.unexpected.value, u, a, all, p);
      }
      assert AreThose(b, all, q);
      SomeOfThose(all, all, x => true);
      SomeOfThose(a, all, p);
      SomeOfThose(b, all, q);
      if b != [] {
        PreferenceKeeps(rules, e, u, all, b);
      }
    }
  }

  lemma PreferenceKeeps(rules: Rules, e: int -> bool, u: int -> bool, all: seq<int>, b: seq<int>)
    requires rules.expected.Some? ==> SplitsBy(rules.expected.value, e)
    requires rules.unexpected.Some? ==> SplitsBy(rules.unexpected.value, u)
    requires AreThose(b, all, x => Allowed(rules, e, u, x))
    ensures var prior := rules.expected.Some? && rules.actPrior && exists y :: y in all && Allowed(rules, e, u, y) && e(y);
            var unprior := rules.unexpected.Some? && rules.actUnprior &&
                           exists y :: y in all && Allowed(rules, e, u, y) && (prior ==> e(y)) && !u(y);
            var c := if rules.expected.Some? && rules.actPrior then Prefer(b, rules.expected.value(b).0) else b;
            var d := if rules.unexpected.Some? && rules.actUnprior then Prefer(c, rules.unexpected.value(c).1) else c;
            AreThose(d, all, x => Allowed(rules, e, u, x) && (prior ==> e(x)) && (unprior ==> !u(x)))
  {
    hide SplitsBy, Allowed, Count;
    var q: int -> bool := x => Allowed(rules, e, u, x);
    assert AreThose(b, all, q);
    var prior := rules.expected.Some? && rules.actPrior && exists y :: y in all && Allowed(rules, e, u, y) && e(y);
    var c := if rules.expected.Some? && rules.actPrior then Prefer(b, rules.expected.value(b).0) else b;
    if rules.expected.Some? {
      FilterKeeps(rules.expected.value, e, b, all, q);
      SomeOfThose(rules.expected.value(b).0, all, x => q(x) && e(x));
    }
    var r: int -> bool := x => Allowed(rules, e, u, x) && (prior ==> e(x));
    assert AreThose(c, all, r);
    if rules.unexpected.Some? {
      FilterKeeps(rules.unexpected.value, u, c, all, r);
      SomeOfThose(rules.unexpected.value(c).1, all, x => r(x) && !u(x));
    }
  }

  /** Replies that QueryIP can give. */
  ghost predicate FromQueryIP(cs: seq<Client>) {
    forall i :: 0 <= i < |cs| ==> (cs[i].reply.ips != [] <==> cs[i].reply.err.None?)
  }

  /** What serialQuery promises of its answer. */
  ghost predicate Serial(cs: seq<Client>, a: Answer) {
    match a
    case Answered(ips, ttl, who) =>
      && who < |cs| && SerialHit(cs[who]) && ips == cs[who].reply.ips && ttl == cs[who].reply.ttl
      && forall i :: 0 <= i < who ==> !SerialHit(cs[i])
    case NoAnswer(errs) => errs == SerialErrors(cs) && forall i :: 0 <= i < |cs| ==> !SerialHit(cs[i])
  }

  /** With every group a single client, the two modes give the same answer: the same client, the same
      IPs and the same TTL, or none. */
  lemma SerialAnswersAlike(cs: seq<Client>, groups: seq<Group>, p: Answer, s: Answer)
    requires FromQueryIP(cs) && Decided(ParallelReplies(cs), groups, p) && Serial(cs, s)
    requires forall g :: 0 <= g < |groups| ==> groups[g].start == groups[g].end
    ensures p.Answered? <==> s.Answered?
    ensures p.Answered? ==> p == s
  {
    var rs := ParallelReplies(cs);
    assert forall i :: 0 <= i < |cs| ==> (Success(rs[i]) <==> SerialHit(cs[i]));
    if s.Answered? {
      assert Success(rs[s.who]);
    }
  }

  // ---------------------------------------------------------------- mergeQueryErrors

  datatype Merged = Empty | One(err: Error) | Many(errs: seq<Error>)

  /** A server that did not answer. */
  predicate NotFound(e: Error) {
    Is(e, RecordNotFound)
  }

  /** The position of the first error of another kind, or the length. */
  function Pivot(errs: seq<Error>): (m: nat)
    ensures m <= |errs| && (m < |errs| ==> !NotFound(errs[m])) && forall i :: 0 <= i < m ==> NotFound(errs[i])
  {
    if errs == [] || !NotFound(errs[0]) then 0 else 1 + Pivot(errs[1..])
  }

  /** All errors of another kind are the first of them. */
  ghost predicate Uniform(errs: seq<Error>) {
    var m := Pivot(errs);
    m < |errs| && forall i :: m <= i < |errs| ==> NotFound(errs[i]) || Is(errs[i], errs[m])
  }

  /** What becomes of a list of errors. */
  ghost predicate Merges(errs: seq<Error>, r: Merged) {
    var m := Pivot(errs);
    if errs == [] then r == Empty
    else if m == |errs| then r == One(RecordNotFound)
    else if !Uniform(errs) then r == Many(errs)
    else if Is(errs[m], EmptyResponse) then r == Empty
    else r == One(errs[m])
  }

  /** Servers without an answer are passed over; the others' errors are reported as the first of them, if
      they all are that one, an empty response as such; otherwise all errors are combined. */
  method MergeQueryErrors(errs: seq<Error>) returns (r: Merged)
    ensures Merges(errs, r)
  {
    if |errs| == 0 {
      return Empty;
    }
    var noRNF: Option<Error> := None;
    for i := 0 to |errs|
      invariant noRNF.None? ==> forall j :: 0 <= j < i ==> NotFound(errs[j])
      invariant noRNF.Some? ==> Pivot(errs) < i && errs[Pivot(errs)] == noRNF.value
      invariant noRNF.Some? ==> forall j :: Pivot(errs) <= j < i ==> NotFound(errs[j]) || Is(errs[j], noRNF.value)
    {
      if Is(errs[i], RecordNotFound) {
        continue;
      } else if noRNF.None? {
        PivotIs(errs, i);
        noRNF := Some(errs[i]);
      } else if !Is(errs[i], noRNF.value) {
        return Many(errs);
      }
    }
    if noRNF.None? {
      PivotIs(errs, |errs|);
      return One(RecordNotFound);
    }
    return if Is(noRNF.value, EmptyResponse) then Empty else One(noRNF.value);
  }

  lemma PivotIs(errs: seq<Error>, m: nat)
    requires m <= |errs| && (m < |errs| ==> !NotFound(errs[m])) && forall i :: 0 <= i < m ==> NotFound(errs[i])
    ensures Pivot(errs) == m
  {
  }

  lemma {:induction false} IsTransitive(e: Error, f: Error, g: Error)
    requires Is(e, f) && Is(f, g)
    ensures Is(e, g)
  {
    if e != f {
      IsTransitive(e.inner, f, g);
    }
  }

  // ---------------------------------------------------------------- both modes when every client fails

  ghost predicate SomeSkipped(cs: seq<Client>) {
    exists i :: 0 <= i < |cs| && cs[i].skipped
  }

  ghost predicate SomeAsked(cs: seq<Client>) {
    exists i :: 0 <= i < |cs| && !cs[i].skipped
  }

  /** What each client adds to the parallel list. */
  function ErrorAt(c: Client): Error {
    if c.skipped then EmptyResponse else ErrorOf(c.reply)
  }

  /** A client that was not asked, or did not find the record. */
  predicate PassedOver(c: Client) {
    c.skipped || NotFound(ErrorOf(c.reply))
  }

  /** The first client that was asked and failed in another way, or the length. */
  function AskedPivot(cs: seq<Client>): (m: nat)
    ensures m <= |cs| && (m < |cs| ==> !PassedOver(cs[m])) && forall i :: 0 <= i < m ==> PassedOver(cs[i])
  {
    if cs == [] || !PassedOver(cs[0]) then 0 else 1 + AskedPivot(cs[1..])
  }

  /** The serial list holds the errors of the clients that were asked, and nothing else. */
  lemma {:induction false} SerialErrorsHold(cs: seq<Client>)
    ensures forall e :: e in SerialErrors(cs) <==> exists i :: 0 <= i < |cs| && !cs[i].skipped && ErrorOf(cs[i].reply) == e
    ensures |SerialErrors(cs)| <= |cs| && (|SerialErrors(cs)| == |cs| <==> !SomeSkipped(cs))
    ensures SerialErrors(cs) == [] <==> !SomeAsked(cs)
    ensures !SomeSkipped(cs) ==> SerialErrors(cs) == Errors(ParallelReplies(cs))
  {
    hide Is;
    if cs != [] {
      var n := |cs| - 1;
      SerialErrorsHold(cs[..n]);
      assert forall i :: 0 <= i < n ==> cs[..n][i] == cs[i];
      if !SomeSkipped(cs) {
        assert Errors(ParallelReplies(cs)) == Errors(ParallelReplies(cs[..n])) + [ErrorOf(cs[n].reply)];
      }
    }
  }

  /** The first serial error of another kind is that client's. */
  lemma {:induction false} SerialPivot(cs: seq<Client>)
    ensures var ss, m := SerialErrors(cs), AskedPivot(cs);
            && (Pivot(ss) < |ss| <==> m < |cs|)
            && (m < |cs| ==> ss[Pivot(ss)] == ErrorOf(cs[m].reply))
    decreases |cs|
  {
    hide Is, NotFound;
    if cs != [] {
      var n := |cs| - 1;
      SerialPivot(cs[..n]);
      var ss, m := SerialErrors(cs[..n]), AskedPivot(cs[..n]);
      assert cs == cs[..n] + [cs[n]];
      AskedPivotSnoc(cs[..n], cs[n]);
      if cs[n].skipped {
        assert SerialErrors(cs) == ss;
      } else {
        PivotSnoc(ss, ErrorOf(cs[n].reply));
      }
    }
  }

  lemma PivotSnoc(errs: seq<Error>, e: Error)
    ensures Pivot(errs + [e]) == if Pivot(errs) < |errs| then Pivot(errs) else if NotFound(e) then |errs| + 1 else |errs|
  {
    hide NotFound;
    PivotIs(errs + [e], if Pivot(errs) < |errs| then Pivot(errs) else if NotFound(e) then |errs| + 1 else |errs|);
  }

  lemma AskedPivotIs(cs: seq<Client>, m: nat)
    requires m <= |cs| && (m < |cs| ==> !PassedOver(cs[m])) && forall i :: 0 <= i < m ==> PassedOver(cs[i])
    ensures AskedPivot(cs) == m
  {
    hide PassedOver;
  }

  lemma AskedPivotSnoc(cs: seq<Client>, c: Client)
    ensures var n, m := |cs|, AskedPivot(cs);
            AskedPivot(cs + [c]) == if m < n then m else if PassedOver(c) then n + 1 else n
  {
    hide PassedOver;
    var n, m := |cs|, AskedPivot(cs);
    AskedPivotIs(cs + [c], if m < n then m else if PassedOver(c) then n + 1 else n);
  }

  /** A client was skipped before any asked one failed in another way. */
  ghost predicate SkippedFirst(cs: seq<Client>) {
    exists i :: 0 <= i < AskedPivot(cs) && cs[i].skipped
  }

  /** The clients that were asked amount to an empty response by themselves. */
  ghost predicate AskedEmpty(cs: seq<Client>) {
    var m := AskedPivot(cs);
    && m < |cs| && Is(ErrorOf(cs[m].reply), EmptyResponse)
    && forall i :: 0 <= i < |cs| && !cs[i].skipped ==>
         NotFound(ErrorOf(cs[i].reply)) || Is(ErrorOf(cs[i].reply), ErrorOf(cs[m].reply))
  }

  lemma NoRecordIsEmpty()
    ensures !NotFound(EmptyResponse)
  {
  }

  lemma SerialMerges(cs: seq<Client>, s: Merged)
    requires Merges(SerialErrors(cs), s) && SomeAsked(cs)
    ensures s == Empty <==> AskedEmpty(cs)
    ensures s.One? || s.Many? || s.Empty?
    ensures s.Many? ==> s.errs == SerialErrors(cs)
    ensures s.One? ==> AskedPivot(cs) == |cs| || s.err == ErrorOf(cs[AskedPivot(cs)].reply)
  {
    SerialErrorsHold(cs);
    SerialPivot(cs);
    var ss, m := SerialErrors(cs), AskedPivot(cs);
    hide Is, NotFound, SerialErrors, Errors, ParallelReplies, Pivot, AskedPivot;
    if m < |cs| {
      UniformMeans(ss);
      assert Uniform(ss) <==> forall e :: e in ss ==> NotFound(e) || Is(e, ErrorOf(cs[m].reply));
    }
  }

  lemma UniformMeans(errs: seq<Error>)
    requires Pivot(errs) < |errs|
    ensures Uniform(errs) <==> forall e :: e in errs ==> NotFound(e) || Is(e, errs[Pivot(errs)])
  {
    hide Is, NotFound;
    if Uniform(errs) {
      forall e | e in errs ensures NotFound(e) || Is(e, errs[Pivot(errs)]) {
        var i :| 0 <= i < |errs| && errs[i] == e;
      }
    }
  }

  lemma ParallelLength(cs: seq<Client>)
    ensures |Errors(ParallelReplies(cs))| == |cs|
  {
  }

  lemma ParallelErrorAt(cs: seq<Client>, i: nat)
    requires i < |cs|
    ensures |Errors(ParallelReplies(cs))| == |cs| && Errors(ParallelReplies(cs))[i] == ErrorAt(cs[i])
  {
  }

  /** With a skipped client the parallel list is an empty response exactly if the asked ones are, and either
      a client was skipped first or the first asked failure is the plain empty response; it is never a
      single other error. */
  lemma ParallelMerges(cs: seq<Client>, p: Merged)
    requires Merges(Errors(ParallelReplies(cs)), p) && SomeSkipped(cs) && SomeAsked(cs)
    ensures !p.One? && (p.Many? ==> |p.errs| == |cs|)
    ensures AskedEmpty(cs) ==>
              (p == Empty <==> SkippedFirst(cs) || ErrorOf(cs[AskedPivot(cs)].reply) == EmptyResponse)
  {
    hide NotFound, Errors, ParallelReplies;
    var ps := Errors(ParallelReplies(cs));
    ParallelLength(cs);
    forall i | 0 <= i < |cs| ensures ps[i] == ErrorAt(cs[i]) {
      ParallelErrorAt(cs, i);
    }
    NoRecordIsEmpty();
    var k :| 0 <= k < |cs| && cs[k].skipped;
    assert ps[k] == EmptyResponse;
    ParallelPivot(cs, ps);
    UniformMeans(ps);
    var q := ps[Pivot(ps)];
    hide Pivot;
    if Uniform(ps) {
      assert EmptyResponse in ps;
      assert Is(EmptyResponse, q) && q == EmptyResponse;
    } else if AskedEmpty(cs) {
      if q == EmptyResponse {
        forall e | e in ps ensures NotFound(e) || Is(e, q) {
          var i :| 0 <= i < |cs| && ps[i] == e;
          var m := AskedPivot(cs);
          if !cs[i].skipped && !NotFound(e) {
            IsTransitive(e, ErrorOf(cs[m].reply), EmptyResponse);
          }
        }
      }
    }
  }

  /** The first error of another kind in the parallel list. */
  lemma ParallelPivot(cs: seq<Client>, ps: seq<Error>)
    requires |ps| == |cs| && (forall i :: 0 <= i < |cs| ==> ps[i] == ErrorAt(cs[i])) && SomeSkipped(cs)
    ensures Pivot(ps) < |ps|
    ensures SkippedFirst(cs) ==> ps[Pivot(ps)] == EmptyResponse
    ensures !SkippedFirst(cs) && AskedPivot(cs) < |cs| ==> ps[Pivot(ps)] == ErrorOf(cs[AskedPivot(cs)].reply)
  {
    NoRecordIsEmpty();
    hide NotFound, Is;
    var k :| 0 <= k < |cs| && cs[k].skipped;
    var m, q := AskedPivot(cs), Pivot(ps);
    assert ps[k] == EmptyResponse && q <= k;
    if SkippedFirst(cs) {
      var i :| 0 <= i < m && cs[i].skipped;
      assert ps[i] == EmptyResponse && q <= i;
      assert cs[q].skipped;
    } else if m < |cs| {
      PivotIs(ps, m);
    }
  }

  /**
   * When all fail, the two modes report the same error exactly if no client was skipped, or all were, or the
   * clients that were asked amount to an empty response by themselves, and then either one was skipped
   * before the first of them or that one's error is not wrapped.
   */
  lemma SerialFailsAlikeExactly(cs: seq<Client>, p: Merged, s: Merged)
    requires Merges(Errors(ParallelReplies(cs)), p) && Merges(SerialErrors(cs), s)
    ensures p == s <==>
            || !SomeSkipped(cs) || !SomeAsked(cs)
            || (AskedEmpty(cs) && (SkippedFirst(cs) || ErrorOf(cs[AskedPivot(cs)].reply) == EmptyResponse))
  {
    SerialErrorsHold(cs);
    if SomeSkipped(cs) && SomeAsked(cs) {
      SerialMerges(cs, s);
      ParallelMerges(cs, p);
    } else if SomeSkipped(cs) {
      AllSkipped(cs, p);
    }
    hide Is, NotFound, Pivot, SerialErrors, AskedPivot, AskedEmpty, SkippedFirst;
  }

  lemma AllSkipped(cs: seq<Client>, p: Merged)
    requires !SomeAsked(cs) && Merges(Errors(ParallelReplies(cs)), p)
    ensures p == Empty
  {
    var ps := Errors(ParallelReplies(cs));
    assert forall i :: 0 <= i < |ps| ==> ps[i] == EmptyResponse;
    if ps != [] {
      PivotIs(ps, 0);
    }
  }

  /** A disabled FakeDNS client beside a server without the record: the modes report different errors. */
  lemma SkippedClientExample()
    ensures var cs := [Client(true, Reply([], 0, Some(EmptyResponse))), Client(false, Reply([], 0, Some(RecordNotFound)))];
            && FromQueryIP(cs)
            && Merges(SerialErrors(cs), One(RecordNotFound)) && Merges(Errors(ParallelReplies(cs)), Empty)
  {
    var a, b := Client(true, Reply([], 0, Some(EmptyResponse))), Client(false, Reply([], 0, Some(RecordNotFound)));
    assert [a, b][..1] == [a] && [a][..0] == [];
    assert SerialErrors([a]) == SerialErrors([]) + [];
    assert SerialErrors([a, b]) == [RecordNotFound];
    PivotIs([RecordNotFound], 1);
    assert Errors(ParallelReplies([a, b])) == [EmptyResponse, RecordNotFound];
    PivotIs([EmptyResponse, RecordNotFound], 0);
  }
}
