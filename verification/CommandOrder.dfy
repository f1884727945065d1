/**
 The order in which commands run: depth first, each one behind what it waits for.  The work list is a way to get
 that order.
 */
module CommandOrder {
  import opened CommandList

  // ---------------------------------------------------------------- the order of the result

  function Reverse(ns: seq<Name>): (r: seq<Name>)
    ensures forall n :: n in r <==> n in ns
  {
    if ns == [] then []
    else
      assert ns == ns[..|ns| - 1] + [ns[|ns| - 1]];
      [ns[|ns| - 1]] + Reverse(ns[..|ns| - 1])
  }

  predicate Ranked(rank: map<Name, nat>, ns: seq<Name>) {
    forall n :: n in ns ==> n in rank
  }

  /** One above the highest rank of `ns`. */
  function Top(rank: map<Name, nat>, ns: seq<Name>): nat
    requires Ranked(rank, ns)
  {
    if ns == [] then 0 else if rank[ns[0]] + 1 > Top(rank, ns[1..]) then rank[ns[0]] + 1 else Top(rank, ns[1..])
  }

  lemma {:induction false} TopBelow(rank: map<Name, nat>, ns: seq<Name>, most: nat)
    requires forall n :: n in ns ==> n in rank && rank[n] < most
    ensures Top(rank, ns) <= most
  {
    if ns != [] {
      TopBelow(rank, ns[1..], most);
    }
  }

  ghost predicate RankedPool(c: Commands, rank: map<Name, nat>, pool: set<Name>) {
    Ranks(c, rank) && (forall n :: n in rank ==> Defined(c, n)) && pool <= rank.Keys
  }

  lemma WaitsAreLower(c: Commands, rank: map<Name, nat>, n: Name, pool: set<Name>, done: seq<Name>)
    requires RankedPool(c, rank, pool) && n in rank
    ensures forall d :: d in Waits(c, n, pool, done) ==> d in rank && rank[d] < rank[n]
    ensures RankedPool(c, rank, Widened(c, n, pool))
  {
    WaitsMembers(c, n, pool, done);
  }

  /** The list also holds the dependencies of `n` while these are brought. */
  function Widened(c: Commands, n: Name, pool: set<Name>): set<Name> {
    pool + set d | d in DepsOf(c, n)
  }

  /** Depth first: what `n` waits for, the last-named first and each of them likewise, and then `n`. */
  ghost function Visit(c: Commands, rank: map<Name, nat>, n: Name, pool: set<Name>, done: seq<Name>): seq<Name>
    requires RankedPool(c, rank, pool) && n in rank
    decreases rank[n] + 1, 0
  {
    if n in done then done
    else
      WaitsAreLower(c, rank, n, pool, done);
      var before := Reverse(Waits(c, n, pool, done));
      TopBelow(rank, before, rank[n]);
      VisitAll(c, rank, before, Widened(c, n, pool), done) + [n]
  }

  ghost function VisitAll(c: Commands, rank: map<Name, nat>, ns: seq<Name>, pool: set<Name>, done: seq<Name>): seq<Name>
    requires RankedPool(c, rank, pool) && Ranked(rank, ns)
    decreases Top(rank, ns), |ns|
  {
    if ns == [] then done
    else VisitAll(c, rank, ns[1..], pool, Visit(c, rank, ns[0], pool, done))
  }

  lemma {:induction false} VisitGrows(c: Commands, rank: map<Name, nat>, n: Name, pool: set<Name>, done: seq<Name>)
    requires RankedPool(c, rank, pool) && n in rank
    ensures var v := Visit(c, rank, n, pool, done);
            done <= v && n in v && forall x :: x in v && x !in done ==> x in rank && rank[x] <= rank[n]
    decreases rank[n] + 1, 0
  {
    if n !in done {
      WaitsAreLower(c, rank, n, pool, done);
      var before := Reverse(Waits(c, n, pool, done));
      TopBelow(rank, before, rank[n]);
      VisitAllGrows(c, rank, before, Widened(c, n, pool), done);
    }
  }

  lemma {:induction false} VisitAllGrows(c: Commands, rank: map<Name, nat>, ns: seq<Name>, pool: set<Name>, done: seq<Name>)
    requires RankedPool(c, rank, pool) && Ranked(rank, ns)
    ensures var v := VisitAll(c, rank, ns, pool, done);
            && done <= v && (forall n :: n in ns ==> n in v)
            && forall x :: x in v && x !in done ==> x in rank && rank[x] < Top(rank, ns)
    decreases Top(rank, ns), |ns|
  {
    if ns != [] {
      VisitGrows(c, rank, ns[0], pool, done);
      VisitAllGrows(c, rank, ns[1..], pool, Visit(c, rank, ns[0], pool, done));
    }
  }

  ghost predicate PoolsAgree(a: set<Name>, b: set<Name>, done: seq<Name>) {
    forall n {:trigger n in a} {:trigger n in b} :: n !in done ==> (n in a <==> n in b)
  }

  lemma {:induction false} ListedAgree(ds: seq<Name>, a: set<Name>, b: set<Name>, done: seq<Name>)
    requires PoolsAgree(a, b, done)
    ensures Undone(Listed(ds, a), done) == Undone(Listed(ds, b), done)
  {
    if ds != [] {
      var k := |ds| - 1;
      ListedAgree(ds[..k], a, b, done);
      assert ds[..k + 1] == ds;
      ListedStep(ds, k, a, done);
      ListedStep(ds, k, b, done);
    }
  }

  lemma {:induction false} VisitSamePool(c: Commands, rank: map<Name, nat>, n: Name, a: set<Name>, b: set<Name>, done: seq<Name>)
    requires RankedPool(c, rank, a) && RankedPool(c, rank, b) && n in rank && PoolsAgree(a, b, done)
    ensures Visit(c, rank, n, a, done) == Visit(c, rank, n, b, done)
    decreases rank[n] + 1, 0
  {
    if n !in done {
      WaitsAreLower(c, rank, n, a, done);
      WaitsAreLower(c, rank, n, b, done);
      ListedAgree(OrderDepsOf(c, n), a, b, done);
      var before := Reverse(Waits(c, n, a, done));
      TopBelow(rank, before, rank[n]);
      VisitAllSamePool(c, rank, before, Widened(c, n, a), Widened(c, n, b), done);
    }
  }

  lemma {:induction false} VisitAllSamePool(c: Commands, rank: map<Name, nat>, ns: seq<Name>, a: set<Name>, b: set<Name>, done: seq<Name>)
    requires RankedPool(c, rank, a) && RankedPool(c, rank, b) && PoolsAgree(a, b, done) && Ranked(rank, ns)
    ensures VisitAll(c, rank, ns, a, done) == VisitAll(c, rank, ns, b, done)
    decreases Top(rank, ns), |ns|
  {
    if ns != [] {
      VisitSamePool(c, rank, ns[0], a, b, done);
      VisitGrows(c, rank, ns[0], a, done);
      VisitAllSamePool(c, rank, ns[1..], a, b, Visit(c, rank, ns[0], a, done));
    }
  }

  lemma {:induction false} VisitInTurn(c: Commands, rank: map<Name, nat>, a: seq<Name>, b: seq<Name>, pool: set<Name>, done: seq<Name>)
    requires RankedPool(c, rank, pool) && Ranked(rank, a) && Ranked(rank, b)
    ensures VisitAll(c, rank, a + b, pool, done) == VisitAll(c, rank, b, pool, VisitAll(c, rank, a, pool, done))
    decreases |a|
  {
    if a == [] {
      assert a + b == b;
    } else {
      assert (a + b)[1..] == a[1..] + b && (a + b)[0] == a[0];
      VisitInTurn(c, rank, a[1..], b, pool, Visit(c, rank, a[0], pool, done));
    }
  }

  lemma VisitedIsSkipped(c: Commands, rank: map<Name, nat>, a: seq<Name>, n: Name, b: seq<Name>, pool: set<Name>, done: seq<Name>)
    requires RankedPool(c, rank, pool) && n in done && n in rank
    requires Ranked(rank, a) && Ranked(rank, b)
    ensures VisitAll(c, rank, a + b, pool, done) == VisitAll(c, rank, a + ([n] + b), pool, done)
  {
    VisitInTurn(c, rank, a, b, pool, done);
    VisitInTurn(c, rank, a, [n] + b, pool, done);
    VisitAllGrows(c, rank, a, pool, done);
    assert ([n] + b)[1..] == b;
  }

  lemma VisitFirst(c: Commands, rank: map<Name, nat>, ns: seq<Name>, pool: set<Name>, done: seq<Name>)
    requires RankedPool(c, rank, pool) && ns != [] && Ranked(rank, ns)
    ensures VisitAll(c, rank, ns, pool, done) == VisitAll(c, rank, ns[1..], pool, Visit(c, rank, ns[0], pool, done))
  {
  }

  lemma TakenToFrontVisits(c: Commands, rank: map<Name, nat>, a: seq<Name>, i: nat, b: seq<Name>, pool: set<Name>, done: seq<Name>)
    requires RankedPool(c, rank, pool) && i < |a| && b == [a[i]] + Without(a, i) && Ranked(rank, a) && Ranked(rank, b)
    ensures VisitAll(c, rank, b, pool, done) == VisitAll(c, rank, a, pool, Visit(c, rank, a[i], pool, done))
  {
    hide RankedPool, VisitAll, Visit;
    assert Ranked(rank, a[..i]) && Ranked(rank, a[i + 1..]);
    assert a == a[..i] + ([a[i]] + a[i + 1..]) && b[1..] == a[..i] + a[i + 1..];
    hide Ranked;
    VisitFirst(c, rank, b, pool, done);
    VisitGrows(c, rank, a[i], pool, done);
    VisitedIsSkipped(c, rank, a[..i], a[i], a[i + 1..], pool, Visit(c, rank, a[i], pool, done));
  }

  /** Taking a name to the front is visiting it first. */
  lemma ToFrontVisits(c: Commands, rank: map<Name, nat>, a: seq<Name>, n: Name, b: seq<Name>, pool: set<Name>, done: seq<Name>)
    requires RankedPool(c, rank, pool) && ToFront(a, n, b) && n in rank && Ranked(rank, a)
    ensures Ranked(rank, b)
    ensures VisitAll(c, rank, b, pool, done) == VisitAll(c, rank, a, pool, Visit(c, rank, n, pool, done))
  {
    hide VisitAll, Visit;
    assert Ranked(rank, b) by { ToFrontMembers(a, n, b); }
    hide RankedPool, Ranked;
    if b != [n] + a {
      var i :| 0 <= i < |a| && a[i] == n && b == [n] + Without(a, i);
      TakenToFrontVisits(c, rank, a, i, b, pool, done);
    } else {
      assert b[1..] == a;
      VisitFirst(c, rank, b, pool, done);
    }
  }

  lemma {:induction false} AllToFrontVisits(c: Commands, rank: map<Name, nat>, a: seq<Name>, ns: seq<Name>, b: seq<Name>,
                                            pool: set<Name>, done: seq<Name>)
    requires RankedPool(c, rank, pool) && AllToFront(a, ns, b)
    requires Ranked(rank, ns) && Ranked(rank, a)
    ensures Ranked(rank, b)
    ensures VisitAll(c, rank, b, pool, done) == VisitAll(c, rank, a, pool, VisitAll(c, rank, Reverse(ns), pool, done))
    decreases |ns|
  {
    if ns != [] {
      var last := Last(ns);
      var m :| AllToFront(a, ns[..|ns| - 1], m) && ToFront(m, last, b);
      AllToFrontVisits(c, rank, a, ns[..|ns| - 1], m, pool, Visit(c, rank, last, pool, done));
      ToFrontVisits(c, rank, m, last, b, pool, done);
    }
  }

  lemma {:induction false} AllToFrontMembers(a: seq<Name>, ns: seq<Name>, b: seq<Name>)
    requires AllToFront(a, ns, b)
    ensures forall n :: n in b <==> n in a || n in ns
    decreases |ns|
  {
    if ns != [] {
      var m :| AllToFront(a, ns[..|ns| - 1], m) && ToFront(m, Last(ns), b);
      AllToFrontMembers(a, ns[..|ns| - 1], m);
      ToFrontMembers(m, Last(ns), b);
      assert ns == ns[..|ns| - 1] + [Last(ns)];
    }
  }

  lemma ToFrontMembers(a: seq<Name>, n: Name, b: seq<Name>)
    requires ToFront(a, n, b)
    ensures forall x :: x in b <==> x in a || x == n
  {
    if b != [n] + a {
      var i :| 0 <= i < |a| && a[i] == n && b == [n] + Without(a, i);
      assert a == a[..i] + [n] + a[i + 1..];
    }
  }

  /** `rank` ranks defined commands, and all in the list. */
  ghost predicate Covers(c: Commands, rank: map<Name, nat>, ts: seq<Task>) {
    Ranks(c, rank) && (forall n :: n in rank ==> Defined(c, n)) && AllIn(ts, rank.Keys)
  }

  /** What is scheduled in the end: the tasks in the list visited in turn after `done`. */
  ghost function Outcome(c: Commands, rank: map<Name, nat>, ts: seq<Task>, done: seq<Name>): seq<Name>
    requires Covers(c, rank, ts)
  {
    PoolIs(ts);
    VisitAll(c, rank, NamesOf(ts), PoolOf(ts), done)
  }

  lemma {:induction false} NoneUndone(ds: seq<Name>, done: seq<Name>)
    requires forall d :: d in ds ==> d in done
    ensures Undone(ds, done) == []
  {
    if ds != [] {
      NoneUndone(ds[..|ds| - 1], done);
    }
  }

  lemma NothingToWaitFor(c: Commands, n: Name, pool: set<Name>, done: seq<Name>)
    requires forall d :: d in DepsOf(c, n) || (d in OrderDepsOf(c, n) && d in pool) ==> d in done
    ensures Waits(c, n, pool, done) == []
  {
    ListedMembers(OrderDepsOf(c, n), pool);
    NoneUndone(DepsOf(c, n), done);
    NoneUndone(Listed(OrderDepsOf(c, n), pool), done);
  }

  /** Scheduling the front task does not change the order to come. */
  lemma PopKeepsOrder(c: Commands, rank: map<Name, nat>, ts: seq<Task>, done: seq<Name>)
    requires Covers(c, rank, ts) && ts != [] && Ready(c, ts, done)
    ensures Covers(c, rank, ts[1..])
    ensures var n := ts[0].name;
            Outcome(c, rank, ts, done) == Outcome(c, rank, ts[1..], if n in done then done else done + [n])
  {
    var n, pool := ts[0].name, PoolOf(ts);
    PoolIs(ts);
    PoolIs(ts[1..]);
    NothingToWaitFor(c, n, pool, done);
    var next := if n in done then done else done + [n];
    assert Visit(c, rank, n, pool, done) == next;
    assert NamesOf(ts)[1..] == NamesOf(ts[1..]);
    assert NamesOf(ts) == [n] + NamesOf(ts[1..]);
    VisitAllSamePool(c, rank, NamesOf(ts[1..]), pool, PoolOf(ts[1..]), next);
  }

  /** When all that `n` waits for has been visited from the front, `n` is next and waits for nothing. */
  lemma WaitsVisited(c: Commands, rank: map<Name, nat>, n: Name, pool: set<Name>, later: set<Name>, done: seq<Name>)
    requires RankedPool(c, rank, pool) && RankedPool(c, rank, later) && n in rank && n !in done
    requires later == pool + set d | d in Waits(c, n, pool, done)
    requires Ranked(rank, Waits(c, n, pool, done))
    ensures var x := VisitAll(c, rank, Reverse(Waits(c, n, pool, done)), later, done);
            && Visit(c, rank, n, later, x) == Visit(c, rank, n, pool, done)
            && PoolsAgree(later, pool, Visit(c, rank, n, pool, done))
  {
    var w := Reverse(Waits(c, n, pool, done));
    WaitsMembers(c, n, pool, done);
    WaitsAreLower(c, rank, n, pool, done);
    TopBelow(rank, w, rank[n]);
    var x := VisitAll(c, rank, w, later, done);
    VisitAllSamePool(c, rank, w, later, Widened(c, n, pool), done);
    VisitAllGrows(c, rank, w, later, done);
    NothingToWaitFor(c, n, later, x);
    assert Visit(c, rank, n, pool, done) == x + [n];
  }

  lemma MoveFacts(c: Commands, rank: map<Name, nat>, ts: seq<Task>, done: seq<Name>, r: seq<Task>)
    requires Covers(c, rank, ts) && ts != []
    requires AllToFront(NamesOf(ts), Waits(c, ts[0].name, PoolOf(ts), done), NamesOf(r))
    ensures var w := Waits(c, ts[0].name, PoolOf(ts), done);
            && Covers(c, rank, r) && ts[0].name in rank && NamesOf(ts)[0] == ts[0].name
            && Ranked(rank, NamesOf(ts)) && Ranked(rank, NamesOf(ts)[1..]) && Ranked(rank, NamesOf(r))
            && Ranked(rank, w) && Ranked(rank, Reverse(w))
            && RankedPool(c, rank, PoolOf(ts)) && RankedPool(c, rank, PoolOf(r))
            && PoolOf(r) == PoolOf(ts) + set d | d in w
    ensures Outcome(c, rank, ts, done) == VisitAll(c, rank, NamesOf(ts), PoolOf(ts), done)
    ensures Outcome(c, rank, r, done) == VisitAll(c, rank, NamesOf(r), PoolOf(r), done)
  {
    PoolIs(ts);
    PoolIs(r);
    var w := Waits(c, ts[0].name, PoolOf(ts), done);
    WaitsAreLower(c, rank, ts[0].name, PoolOf(ts), done);
    AllToFrontMembers(NamesOf(ts), w, NamesOf(r));
  }

  /** Nor does bringing to the front what it waits for. */
  lemma MoveKeepsOrder(c: Commands, rank: map<Name, nat>, ts: seq<Task>, done: seq<Name>, r: seq<Task>)
    requires Covers(c, rank, ts) && ts != [] && ts[0].name !in done
    requires AllToFront(NamesOf(ts), Waits(c, ts[0].name, PoolOf(ts), done), NamesOf(r))
    ensures Covers(c, rank, r)
    ensures Outcome(c, rank, ts, done) == Outcome(c, rank, r, done)
  {
    hide *;
    MoveFacts(c, rank, ts, done, r);
    var n, pool, later := ts[0].name, PoolOf(ts), PoolOf(r);
    var w := Waits(c, n, pool, done);
    VisitFirst(c, rank, NamesOf(ts), pool, done);
    AllToFrontVisits(c, rank, NamesOf(ts), w, NamesOf(r), later, done);
    WaitsVisited(c, rank, n, pool, later, done);
    VisitFirst(c, rank, NamesOf(ts), later, VisitAll(c, rank, Reverse(w), later, done));
    VisitAllSamePool(c, rank, NamesOf(ts)[1..], later, pool, Visit(c, rank, n, pool, done));
  }

  // The value of a rank does not matter.

  lemma {:induction false} VisitSameRank(c: Commands, a: map<Name, nat>, b: map<Name, nat>, n: Name, pool: set<Name>, done: seq<Name>)
    requires RankedPool(c, a, pool) && RankedPool(c, b, pool) && n in a && n in b
    ensures Visit(c, a, n, pool, done) == Visit(c, b, n, pool, done)
    decreases a[n] + 1, 0
  {
    if n !in done {
      WaitsAreLower(c, a, n, pool, done);
      WaitsAreLower(c, b, n, pool, done);
      var before := Reverse(Waits(c, n, pool, done));
      TopBelow(a, before, a[n]);
      VisitAllSameRank(c, a, b, before, Widened(c, n, pool), done);
    }
  }

  lemma {:induction false} VisitAllSameRank(c: Commands, a: map<Name, nat>, b: map<Name, nat>, ns: seq<Name>, pool: set<Name>, done: seq<Name>)
    requires RankedPool(c, a, pool) && RankedPool(c, b, pool) && Ranked(a, ns) && Ranked(b, ns)
    ensures VisitAll(c, a, ns, pool, done) == VisitAll(c, b, ns, pool, done)
    decreases Top(a, ns), |ns|
  {
    if ns != [] {
      VisitSameRank(c, a, b, ns[0], pool, done);
      VisitAllSameRank(c, a, b, ns[1..], pool, Visit(c, a, ns[0], pool, done));
    }
  }

  lemma OutcomeSameRank(c: Commands, a: map<Name, nat>, b: map<Name, nat>, ts: seq<Task>)
    requires Covers(c, a, ts) && Covers(c, b, ts)
    ensures Outcome(c, a, ts, []) == Outcome(c, b, ts, [])
  {
    PoolIs(ts);
    VisitAllSameRank(c, a, b, NamesOf(ts), PoolOf(ts), []);
  }

  // A scheduled task that comes up again waits for nothing.

  predicate Settled(c: Commands, ns: seq<Name>, done: seq<Name>) {
    ns == [] ||
    (Settled(c, ns[1..], done) && (ns[0] in done ==> forall d :: d in OrderDepsOf(c, ns[0]) && d in ns ==> d in done))
  }

  lemma {:induction false} SettledWithout(c: Commands, ns: seq<Name>, i: nat, done: seq<Name>)
    requires Settled(c, ns, done) && i < |ns|
    ensures Settled(c, Without(ns, i), done)
  {
    if i == 0 {
      assert Without(ns, 0) == ns[1..];
    } else {
      SettledWithout(c, ns[1..], i - 1, done);
      assert Without(ns, i)[1..] == Without(ns[1..], i - 1);
    }
  }

  lemma {:induction false} SettledFront(c: Commands, a: seq<Name>, ns: seq<Name>, b: seq<Name>, done: seq<Name>)
    requires Settled(c, a, done) && AllToFront(a, ns, b) && forall n :: n in ns ==> n !in done
    ensures Settled(c, b, done)
    decreases |ns|
  {
    if ns != [] {
      var n := Last(ns);
      var m :| AllToFront(a, ns[..|ns| - 1], m) && ToFront(m, n, b);
      SettledFront(c, a, ns[..|ns| - 1], m, done);
      if b == [n] + m {
        assert b[1..] == m;
      } else {
        var i :| 0 <= i < |m| && m[i] == n && b == [n] + Without(m, i);
        SettledWithout(c, m, i, done);
        assert b[1..] == Without(m, i);
      }
    }
  }

  lemma {:induction false} SettledWithOneMore(c: Commands, ns: seq<Name>, n: Name, done: seq<Name>)
    requires Settled(c, ns, done) && forall d :: d in OrderDepsOf(c, n) && d in ns ==> d in done
    ensures Settled(c, ns, done + [n])
  {
    if ns != [] {
      SettledWithOneMore(c, ns[1..], n, done);
    }
  }

  lemma SettledAfterPop(c: Commands, ts: seq<Task>, done: seq<Name>)
    requires Settled(c, NamesOf(ts), done) && ts != [] && Defined(c, ts[0].name) && Ready(c, ts, done)
    ensures Settled(c, NamesOf(ts[1..]), if ts[0].name in done then done else done + [ts[0].name])
  {
    assert NamesOf(ts)[1..] == NamesOf(ts[1..]);
    PoolIs(ts);
    SettledWithOneMore(c, NamesOf(ts[1..]), ts[0].name, done);
  }

  lemma ScheduledIsReady(c: Commands, ts: seq<Task>, done: seq<Name>)
    requires Settled(c, NamesOf(ts), done) && DependenciesFirst(c, done) && ts != [] && ts[0].name in done
    ensures Waits(c, ts[0].name, PoolOf(ts), done) == []
  {
    PoolIs(ts);
    var i :| 0 <= i < |done| && done[i] == ts[0].name;
    assert NamesOf(ts)[0] == ts[0].name;
    NothingToWaitFor(c, ts[0].name, PoolOf(ts), done);
  }

  lemma SettledAfterMove(c: Commands, ts: seq<Task>, r: seq<Task>, done: seq<Name>)
    requires Settled(c, NamesOf(ts), done) && DependenciesFirst(c, done) && ts != [] && Defined(c, ts[0].name)
    requires RoundDone(c, ts, done, r, done, false)
    ensures Settled(c, NamesOf(r), done) && ts[0].name !in done
  {
    var w := Waits(c, ts[0].name, PoolOf(ts), done);
    WaitsMembers(c, ts[0].name, PoolOf(ts), done);
    SettledFront(c, NamesOf(ts), w, NamesOf(r), done);
    assert w == [] ==> NamesOf(r)[0] == NamesOf(ts)[0];
    if ts[0].name in done {
      ScheduledIsReady(c, ts, done);
    }
  }

  // ---------------------------------------------------------------- requests that need no reordering

  /** Each name where it stands first. */
  function Firsts(ns: seq<Name>): seq<Name> {
    if ns == [] then []
    else
      var before := Firsts(ns[..|ns| - 1]);
      if ns[|ns| - 1] in before then before else before + [ns[|ns| - 1]]
  }

  lemma {:induction false} FirstsMembers(ns: seq<Name>)
    ensures forall n :: n in Firsts(ns) <==> n in ns
  {
    if ns != [] {
      FirstsMembers(ns[..|ns| - 1]);
      assert ns == ns[..|ns| - 1] + [ns[|ns| - 1]];
    }
  }

  /** Every requested command is requested behind what it waits for. */
  ghost predicate AsGiven(c: Commands, requested: seq<Task>) {
    forall k, d :: 0 <= k < |requested| && d in Waits(c, requested[k].name, PoolOf(requested), []) ==> d in NamesOf(requested)[..k]
  }

  lemma {:induction false} VisitAsGiven(c: Commands, rank: map<Name, nat>, ns: seq<Name>, pool: set<Name>, k: nat)
    requires RankedPool(c, rank, pool) && Ranked(rank, ns) && k <= |ns|
    requires forall i, d :: 0 <= i < |ns| && d in Waits(c, ns[i], pool, []) ==> d in ns[..i]
    ensures VisitAll(c, rank, ns[k..], pool, Firsts(ns[..k])) == Firsts(ns)
    decreases |ns| - k
  {
    if k == |ns| {
      assert ns[..k] == ns;
    } else {
      var n, done := ns[k], Firsts(ns[..k]);
      WaitsMembers(c, n, pool, []);
      FirstsMembers(ns[..k]);
      NothingToWaitFor(c, n, pool, done);
      assert ns[..k + 1][..k] == ns[..k];
      assert Visit(c, rank, n, pool, done) == Firsts(ns[..k + 1]);
      VisitAsGiven(c, rank, ns, pool, k + 1);
      assert ns[k..][1..] == ns[k + 1..];
    }
  }

  lemma {:induction false} FirstsGrow(ns: seq<Name>, k: nat)
    requires k <= |ns|
    ensures Firsts(ns[..k]) <= Firsts(ns)
    decreases |ns|
  {
    if k < |ns| {
      FirstsGrow(ns[..|ns| - 1], k);
      assert ns[..|ns| - 1][..k] == ns[..k];
    } else {
      assert ns[..k] == ns;
    }
  }

  lemma BehindWhatItWaitsFor(c: Commands, requested: seq<Task>, toRun: seq<Name>, k: nat, d: Name)
    requires DependenciesFirst(c, toRun) && OrderRespected(c, toRun, requested)
    requires toRun == Firsts(NamesOf(requested)) && NoRepeats(toRun)
    requires k < |requested| && d in Waits(c, requested[k].name, PoolOf(requested), [])
    ensures d in NamesOf(requested)[..k]
  {
    var ns := NamesOf(requested);
    var before := Firsts(ns[..k]);
    PoolIs(requested);
    WaitsMembers(c, ns[k], PoolOf(requested), []);
    FirstsMembers(ns[..k]);
    FirstsGrow(ns, k);
    FirstsGrow(ns, k + 1);
    assert ns[..k + 1][..k] == ns[..k];
    var i :| 0 <= i <= |before| && i < |toRun| && toRun[i] == ns[k];
    assert d in toRun[..i];
    assert toRun[..i] == before[..i];
  }

  /** A request is run as given, up to repetitions, exactly when it needs no reordering. */
  lemma RunAsGivenIff(c: Commands, rank: map<Name, nat>, requested: seq<Task>, toRun: seq<Name>)
    requires Covers(c, rank, requested) && toRun == Outcome(c, rank, requested, [])
    requires DependenciesFirst(c, toRun) && OrderRespected(c, toRun, requested) && NoRepeats(toRun)
    ensures toRun == Firsts(NamesOf(requested)) <==> AsGiven(c, requested)
  {
    var ns := NamesOf(requested);
    PoolIs(requested);
    if AsGiven(c, requested) {
      VisitAsGiven(c, rank, ns, PoolOf(requested), 0);
      assert ns[0..] == ns;
    } else if toRun == Firsts(ns) {
      forall k, d | 0 <= k < |requested| && d in Waits(c, requested[k].name, PoolOf(requested), [])
        ensures d in ns[..k]
      {
        BehindWhatItWaitsFor(c, requested, toRun, k, d);
      }
    }
  }

  // ---------------------------------------------------------------- what may overtake

  /** Closed under what commands wait for when `pool` is requested. */
  ghost predicate WaitClosed(c: Commands, pool: set<Name>, ns: set<Name>) {
    forall n, d :: n in ns && (d in DepsOf(c, n) || (d in OrderDepsOf(c, n) && d in pool)) ==> d in ns
  }

  lemma {:induction false} VisitWithin(c: Commands, rank: map<Name, nat>, n: Name, pool: set<Name>, done: seq<Name>,
                                       requested: set<Name>, ns: set<Name>)
    requires RankedPool(c, rank, pool) && n in rank && WaitClosed(c, requested, ns) && n in ns && pool <= requested + ns
    ensures forall x :: x in Visit(c, rank, n, pool, done) ==> x in done || x in ns
    decreases rank[n] + 1, 0
  {
    if n !in done {
      WaitsAreLower(c, rank, n, pool, done);
      WaitsMembers(c, n, pool, done);
      var before := Reverse(Waits(c, n, pool, done));
      TopBelow(rank, before, rank[n]);
      VisitAllWithin(c, rank, before, Widened(c, n, pool), done, requested, ns);
    }
  }

  lemma {:induction false} VisitAllWithin(c: Commands, rank: map<Name, nat>, of: seq<Name>, pool: set<Name>, done: seq<Name>,
                                          requested: set<Name>, ns: set<Name>)
    requires RankedPool(c, rank, pool) && Ranked(rank, of) && WaitClosed(c, requested, ns)
    requires (forall n :: n in of ==> n in ns) && pool <= requested + ns
    ensures forall x :: x in VisitAll(c, rank, of, pool, done) ==> x in done || x in ns
    decreases Top(rank, of), |of|
  {
    if of != [] {
      VisitWithin(c, rank, of[0], pool, done, requested, ns);
      VisitAllWithin(c, rank, of[1..], pool, Visit(c, rank, of[0], pool, done), requested, ns);
    }
  }

  /** Everything before `n` is in `ns`. */
  ghost predicate OnlyBefore(toRun: seq<Name>, n: Name, ns: set<Name>) {
    forall i, j :: 0 <= j < i < |toRun| && toRun[i] == n ==> toRun[j] in ns
  }

  /** Before a requested command runs only what it, or one requested earlier, waits for directly or not. */
  lemma OnlyNeededOvertakes(c: Commands, rank: map<Name, nat>, requested: seq<Task>, toRun: seq<Name>, k: nat, ns: set<Name>)
    requires Covers(c, rank, requested) && toRun == Outcome(c, rank, requested, []) && NoRepeats(toRun)
    requires k < |requested| && WaitClosed(c, PoolOf(requested), ns) && AllIn(requested[..k + 1], ns)
    ensures OnlyBefore(toRun, requested[k].name, ns)
  {
    var names, pool := NamesOf(requested), PoolOf(requested);
    PoolIs(requested);
    var first := names[..k + 1];
    assert names == first + names[k + 1..];
    assert forall i :: 0 <= i <= k ==> first[i] == requested[..k + 1][i].name;
    var x := VisitAll(c, rank, first, pool, []);
    VisitInTurn(c, rank, first, names[k + 1..], pool, []);
    VisitAllGrows(c, rank, first, pool, []);
    VisitAllGrows(c, rank, names[k + 1..], pool, x);
    VisitAllWithin(c, rank, first, pool, [], pool, ns);
    assert first[k] in x;
    var at :| 0 <= at < |x| && x[at] == first[k];
    assert forall i :: 0 <= i < |toRun| && toRun[i] == first[k] ==> i == at;
  }
}
