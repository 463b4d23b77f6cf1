/** The two-pool replay filter and its window, over every run with a clock that never goes back. */
module ReplayFilter {

  datatype Pools<T> = Pools(a: set<T>, b: set<T>, lastClean: int)

  predicate Rotates<T>(p: Pools<T>, interval: int, now: int) {
    now - p.lastClean >= interval
  }

  function Rotated<T>(p: Pools<T>, interval: int, now: int): Pools<T> {
    if Rotates(p, interval, now) then Pools({}, p.a, now) else p
  }

  predicate Accepts<T(==)>(p: Pools<T>, interval: int, x: T, now: int) {
    var q := Rotated(p, interval, now);
    x !in q.a && x !in q.b
  }

  function Checked<T(==)>(p: Pools<T>, interval: int, x: T, now: int): Pools<T> {
    var q := Rotated(p, interval, now);
    if x !in q.a && x !in q.b then q.(a := q.a + {x}) else q
  }

  class ReplayFilter<T(==)> {
    var poolA: set<T>
    var poolB: set<T>
    const interval: int
    var lastClean: int

    function State(): Pools<T>
      reads this
    {
      Pools(poolA, poolB, lastClean)
    }

    constructor (interval: int, now: int)
      ensures State() == Pools({}, {}, now) && this.interval == interval
    {
      poolA, poolB, this.interval, lastClean := {}, {}, interval, now;
    }

    method Check(sum: T, now: int) returns (accepted: bool)
      modifies this
      ensures accepted == Accepts(old(State()), interval, sum, now)
      ensures State() == Checked(old(State()), interval, sum, now)
    {
      if now - lastClean >= interval {
        poolB := poolA;
        poolA := {};
        lastClean := now;
      }
      var existsA := sum in poolA;
      var existsB := sum in poolB;
      if !existsA && !existsB {
        poolA := poolA + {sum};
      }
      return !(existsA || existsB);
    }
  }

  // ---------------------------------------------------------------- runs

  datatype Call<T> = Call(x: T, now: int)

  /** The clock never goes back. */
  ghost predicate Clocked<T>(calls: seq<Call<T>>, from: int) {
    calls == [] || (from <= calls[0].now && Clocked(calls[1..], calls[0].now))
  }

  /** The answers of a run. */
  function Answers<T(==)>(p: Pools<T>, interval: int, calls: seq<Call<T>>): seq<bool>
    decreases calls
  {
    if calls == [] then []
    else [Accepts(p, interval, calls[0].x, calls[0].now)] +
         Answers(Checked(p, interval, calls[0].x, calls[0].now), interval, calls[1..])
  }

  /** x was accepted at time t and is still remembered: in the young pool, which was started at or
      before t and is not due at t, or in the old pool, whose successor was started after t. */
  ghost predicate Remembers<T>(p: Pools<T>, interval: int, x: T, t: int) {
    (x in p.a && t < p.lastClean + interval) || (x in p.b && t < p.lastClean)
  }

  lemma {:induction false} StaysRejected<T>(p: Pools<T>, interval: int, x: T, t: int, calls: seq<Call<T>>, j: nat)
    requires interval > 0 && Remembers(p, interval, x, t) && Clocked(calls, t)
    requires j < |calls| && calls[j].x == x && calls[j].now <= t + interval
    ensures |Answers(p, interval, calls)| > j && !Answers(p, interval, calls)[j]
    decreases calls
  {
    var c := calls[0];
    var q := Checked(p, interval, c.x, c.now);
    if j > 0 {
      ClockedLater(calls, t, j);
      assert c.now <= t + interval;
      ClockedWeaken(calls[1..], c.now, t);
      assert calls[1..][j - 1] == calls[j];
      StaysRejected(q, interval, x, t, calls[1..], j - 1);
    }
  }

  lemma {:induction false} ClockedLater<T>(calls: seq<Call<T>>, from: int, j: nat)
    requires Clocked(calls, from) && 0 < j < |calls|
    ensures calls[0].now <= calls[j].now
    decreases calls
  {
    if j > 1 {
      ClockedLater(calls[1..], calls[0].now, j - 1);
      assert calls[1..][j - 1] == calls[j] && calls[1..][0] == calls[1];
    }
  }

  lemma ClockedWeaken<T>(calls: seq<Call<T>>, from: int, earlier: int)
    requires Clocked(calls, from) && earlier <= from
    ensures Clocked(calls, earlier)
  {
  }

  lemma {:induction false} AnswersLength<T>(p: Pools<T>, interval: int, calls: seq<Call<T>>)
    ensures |Answers(p, interval, calls)| == |calls|
    decreases calls
  {
    if calls != [] {
      AnswersLength(Checked(p, interval, calls[0].x, calls[0].now), interval, calls[1..]);
    }
  }

  /** The window: once x is accepted at call i, it is rejected by every later call up to and including
      the interval after it. */
  lemma {:induction false} Window<T>(p: Pools<T>, interval: int, calls: seq<Call<T>>, i: nat, j: nat)
    requires interval > 0 && Clocked(calls, p.lastClean)
    requires i < j < |calls| && calls[j].x == calls[i].x && calls[j].now <= calls[i].now + interval
    ensures |Answers(p, interval, calls)| == |calls|
    ensures Answers(p, interval, calls)[i] ==> !Answers(p, interval, calls)[j]
    decreases calls
  {
    AnswersLength(p, interval, calls);
    var c := calls[0];
    var q := Checked(p, interval, c.x, c.now);
    ClockedWeaken(calls[1..], c.now, q.lastClean);
    assert calls[1..][j - 1] == calls[j];
    if i > 0 {
      assert calls[1..][i - 1] == calls[i];
      Window(q, interval, calls[1..], i - 1, j - 1);
    } else if Accepts(p, interval, c.x, c.now) {
      StaysRejected(q, interval, c.x, c.now, calls[1..], j - 1);
    }
  }

  /** Rotations made by the first k calls. */
  function Rotations<T(==)>(p: Pools<T>, interval: int, calls: seq<Call<T>>, k: nat): nat
    requires k <= |calls|
    decreases k
  {
    if k == 0 then 0
    else (if Rotates(p, interval, calls[0].now) then 1 else 0) +
         Rotations(Checked(p, interval, calls[0].x, calls[0].now), interval, calls[1..], k - 1)
  }

  /** A rejection has a cause: an acceptance of the same value with at most one rotation since, or the value was
      in a pool from the start and has not been rotated out. */
  lemma {:induction false} RejectionHasCause<T>(p: Pools<T>, interval: int, calls: seq<Call<T>>, j: nat) returns (i: int)
    requires j < |calls|
    ensures |Answers(p, interval, calls)| == |calls| && -1 <= i < j
    ensures !Answers(p, interval, calls)[j] ==>
              || (i == -1 && calls[j].x in p.a && Rotations(p, interval, calls, j + 1) <= 1)
              || (i == -1 && calls[j].x in p.b && Rotations(p, interval, calls, j + 1) == 0)
              || (&& 0 <= i < j && Answers(p, interval, calls)[i] && calls[i].x == calls[j].x
                  && Rotations(p, interval, calls, j + 1) - Rotations(p, interval, calls, i + 1) <= 1)
    decreases calls
  {
    AnswersLength(p, interval, calls);
    var c := calls[0];
    var q := Checked(p, interval, c.x, c.now);
    i := -1;
    if j > 0 {
      i := RejectionHasCause(q, interval, calls[1..], j - 1);
      assert calls[1..][j - 1] == calls[j];
      if i >= 0 {
        assert calls[1..][i] == calls[i + 1];
        i := i + 1;
      } else if Accepts(p, interval, c.x, c.now) && c.x == calls[j].x {
        i := 0;
        assert Rotations(q, interval, calls[1..], 0) == 0;
      }
    }
  }

  /** A rejection in a run of a new filter means that x was accepted before, with at most one rotation
      since. */
  lemma NoFalseRejection<T>(start: int, interval: int, calls: seq<Call<T>>, j: nat)
    requires j < |calls|
    ensures var p: Pools<T> := Pools({}, {}, start);
            && |Answers(p, interval, calls)| == |calls|
            && (!Answers(p, interval, calls)[j] ==>
                  exists i :: && 0 <= i < j && Answers(p, interval, calls)[i] && calls[i].x == calls[j].x
                              && Rotations(p, interval, calls, j + 1) - Rotations(p, interval, calls, i + 1) <= 1)
  {
    var i := RejectionHasCause(Pools({}, {}, start), interval, calls, j);
  }

  lemma {:induction false} RotatesBy<T>(p: Pools<T>, interval: int, calls: seq<Call<T>>, b: nat)
    requires Clocked(calls, p.lastClean) && b < |calls| && calls[b].now >= p.lastClean + interval
    ensures Rotations(p, interval, calls, b + 1) >= 1
    decreases calls
  {
    if b > 0 && !Rotates(p, interval, calls[0].now) {
      ClockedWeaken(calls[1..], calls[0].now, p.lastClean);
      assert calls[1..][b - 1] == calls[b];
      RotatesBy(Checked(p, interval, calls[0].x, calls[0].now), interval, calls[1..], b - 1);
    }
  }

  /** An interval does not pass between two calls without a rotation after the first. */
  lemma {:induction false} RotatesWithin<T>(p: Pools<T>, interval: int, calls: seq<Call<T>>, a: nat, b: nat)
    requires Clocked(calls, p.lastClean) && a < b < |calls| && calls[b].now >= calls[a].now + interval
    ensures Rotations(p, interval, calls, b + 1) - Rotations(p, interval, calls, a + 1) >= 1
    decreases calls
  {
    var c := calls[0];
    var q := Checked(p, interval, c.x, c.now);
    ClockedWeaken(calls[1..], c.now, q.lastClean);
    assert calls[1..][b - 1] == calls[b];
    if a > 0 {
      assert calls[1..][a - 1] == calls[a];
      RotatesWithin(q, interval, calls[1..], a - 1, b - 1);
    } else {
      RotatesBy(q, interval, calls[1..], b - 1);
      assert Rotations(q, interval, calls[1..], 0) == 0;
    }
  }

  /** The filter forgets: a value is accepted again once two intervals have passed since it was last accepted,
      with some call between them. */
  lemma AcceptedAgain<T>(start: int, interval: int, calls: seq<Call<T>>, k: nat, j: nat)
    requires Clocked(calls, start) && k < j < |calls| && calls[j].now >= calls[k].now + interval && interval > 0
    requires var answers := Answers(Pools({}, {}, start), interval, calls);
             forall i :: 0 <= i < j && i < |answers| && answers[i] && calls[i].x == calls[j].x ==> calls[i].now + interval <= calls[k].now
    ensures |Answers(Pools({}, {}, start), interval, calls)| == |calls|
    ensures Answers(Pools({}, {}, start), interval, calls)[j]
  {
    var p: Pools<T> := Pools({}, {}, start);
    var i := RejectionHasCause(p, interval, calls, j);
    if !Answers(p, interval, calls)[j] {
      ClockedBetween(calls, start, k, i);
      RotatesWithin(p, interval, calls, i, k);
      RotatesWithin(p, interval, calls, k, j);
      assert false;
    }
  }

  lemma {:induction false} ClockedBetween<T>(calls: seq<Call<T>>, from: int, k: nat, i: nat)
    requires Clocked(calls, from) && k < |calls| && i < |calls|
    ensures k <= i ==> calls[k].now <= calls[i].now
    decreases calls
  {
    if k < i {
      if k > 0 {
        assert calls[1..][k - 1] == calls[k] && calls[1..][i - 1] == calls[i];
        ClockedBetween(calls[1..], calls[0].now, k - 1, i - 1);
      } else {
        ClockedLater(calls, from, i);
      }
    }
  }
}
