/**
 The command scheduler of idf.py: a work list of tasks is reordered and extended until every
 command stands behind its dependencies and behind those order-only dependencies that were asked for.
 */
module CommandScheduler {
  import opened CommandList
  import opened CommandOrder

  // ---------------------------------------------------------------- the whole loop

  /** Names that are not scheduled yet. */
  function Left(c: Commands, done: seq<Name>): set<Name> {
    set n | n in AllNames(c) && n !in done
  }

  ghost function FrontRank(ts: seq<Task>, done: seq<Name>, rank: map<Name, nat>): nat {
    if ts == [] then 0
    else if ts[0].name in done then |ts|
    else if ts[0].name in rank then rank[ts[0].name] else 0
  }

  predicate FrontDone(ts: seq<Task>, done: seq<Name>) {
    ts != [] && ts[0].name in done
  }

  ghost predicate Wanted(c: Commands, requested: seq<Task>, ts: seq<Task>, done: seq<Name>) {
    forall ns: set<Name> :: Closed(c, ns) && AllIn(requested, ns) ==> AllIn(ts, ns) && forall n :: n in done ==> n in ns
  }

  /** What the loop keeps. */
  ghost predicate LoopInv(c: Commands, requested: seq<Task>, ts: seq<Task>, done: seq<Name>) {
    && (forall t :: t in ts ==> Defined(c, t.name))
    && NoRepeats(done) && DependenciesFirst(c, done) && OrderRespected(c, done, requested)
    && (forall n :: Named(requested, n) ==> Named(ts, n) || n in done)
    && Wanted(c, requested, ts, done)
  }

  lemma PopKeepsInv(c: Commands, requested: seq<Task>, ts: seq<Task>, done: seq<Name>)
    requires LoopInv(c, requested, ts, done) && ts != [] && Ready(c, ts, done)
    ensures LoopInv(c, requested, ts[1..], if ts[0].name in done then done else done + [ts[0].name])
  {
    var name := ts[0].name;
    var done' := if name in done then done else done + [name];
    forall n | Named(requested, n)
      ensures Named(ts[1..], n) || n in done'
    {
      if n !in done {
        var i :| 0 <= i < |ts| && ts[i].name == n;
        if i > 0 {
          assert ts[1..][i - 1].name == n;
        }
      }
    }
    assert forall i :: 0 <= i < |done| ==> done'[..i] == done[..i];
    assert done'[..|done|] == done;
  }

  lemma MoveKeepsInv(c: Commands, requested: seq<Task>, ts: seq<Task>, r: seq<Task>, done: seq<Name>)
    requires WellFormed(c) && LoopInv(c, requested, ts, done) && ts != []
    requires Extends(ts, r, c.deps[ts[0].name])
    ensures LoopInv(c, requested, r, done)
  {
    forall n | Named(requested, n)
      ensures Named(r, n) || n in done
    {
      if n !in done {
        var i :| 0 <= i < |ts| && ts[i].name == n;
        assert ts[i] in r;
      }
    }
    forall ns: set<Name> | Closed(c, ns) && AllIn(requested, ns)
      ensures AllIn(r, ns)
    {
      assert AllIn(ts, ns) && ts[0].name in ns;
      forall i | 0 <= i < |r|
        ensures r[i].name in ns
      {
        assert r[i] in r;
        if r[i] in ts {
          var j :| 0 <= j < |ts| && ts[j] == r[i];
        }
      }
    }
  }

  lemma LeftShrinks(c: Commands, done: seq<Name>, n: Name)
    requires n in AllNames(c) && n !in done
    ensures |Left(c, done + [n])| < |Left(c, done)|
  {
    assert Left(c, done + [n]) == Left(c, done) - {n};
    assert n in Left(c, done);
  }

  // ---------------------------------------------------------------- the schedule

  lemma DefinedRanks(c: Commands, rank: map<Name, nat>, requested: seq<Task>) returns (r: map<Name, nat>)
    requires WellFormed(c) && Ranks(c, rank) && AllIn(requested, rank.Keys)
    requires forall t :: t in requested ==> Defined(c, t.name)
    ensures Covers(c, r, requested)
  {
    r := map n | n in rank && Defined(c, n) :: rank[n];
  }

  /** Whenever the requested commands and all they need have no circular dependencies, the loop
      terminates.  The result repeats nothing, holds every
      requested command and nothing outside what the requested ones need, and puts each command
      behind all its dependencies and behind the order-only dependencies that were requested.
      It is the depth-first order of `Outcome`; it is the request itself exactly when that needs no
      reordering, and otherwise a command runs before one requested earlier only when that one, or one
      requested before it, waits for it directly or not. */
  method Schedule(requested: seq<Task>, c: Commands, nextId: nat) returns (toRun: seq<Name>)
    requires WellFormed(c) && forall t :: t in requested ==> Defined(c, t.name)
    requires exists rank :: Ranks(c, rank) && AllIn(requested, rank.Keys)
    ensures NoRepeats(toRun)
    ensures forall n :: Named(requested, n) ==> n in toRun
    ensures DependenciesFirst(c, toRun)
    ensures OrderRespected(c, toRun, requested)
    ensures forall ns: set<Name> :: Closed(c, ns) && AllIn(requested, ns) ==> forall n :: n in toRun ==> n in ns
    ensures forall rank :: Covers(c, rank, requested) ==> toRun == Outcome(c, rank, requested, [])
    ensures toRun == Firsts(NamesOf(requested)) <==> AsGiven(c, requested)
    ensures forall k, ns :: 0 <= k < |requested| && WaitClosed(c, PoolOf(requested), ns) && AllIn(requested[..k + 1], ns)
                            ==> OnlyBefore(toRun, requested[k].name, ns)
  {
    ghost var any :| Ranks(c, any) && AllIn(requested, any.Keys);
    ghost var rank := DefinedRanks(c, any, requested);
    toRun := ScheduleRanked(requested, c, nextId, rank);
    RunAsGivenIff(c, rank, requested, toRun);
    forall other | Covers(c, other, requested)
      ensures toRun == Outcome(c, other, requested, [])
    {
      OutcomeSameRank(c, rank, other, requested);
    }
    forall k, ns | 0 <= k < |requested| && WaitClosed(c, PoolOf(requested), ns) && AllIn(requested[..k + 1], ns)
      ensures OnlyBefore(toRun, requested[k].name, ns)
    {
      OnlyNeededOvertakes(c, rank, requested, toRun, k, ns);
    }
  }

  // The while loop.
  method ScheduleRanked(requested: seq<Task>, c: Commands, nextId: nat, ghost rank: map<Name, nat>) returns (toRun: seq<Name>)
    requires WellFormed(c) && (forall t :: t in requested ==> Defined(c, t.name)) && Covers(c, rank, requested)
    ensures LoopInv(c, requested, [], toRun)
    ensures toRun == Outcome(c, rank, requested, [])
  {
    var tasks, id := requested, nextId;
    toRun := [];
    NothingScheduled(c, NamesOf(requested));
    while tasks != []
      invariant LoopInv(c, requested, tasks, toRun) && Settled(c, NamesOf(tasks), toRun) && Covers(c, rank, tasks)
      invariant Outcome(c, rank, tasks, toRun) == Outcome(c, rank, requested, [])
      decreases |Left(c, toRun)|, FrontDone(tasks, toRun), FrontRank(tasks, toRun, rank)
    {
      ghost var was, wasDone := tasks, toRun;
      var popped;
      tasks, toRun, id, popped := Round(c, tasks, toRun, id);
      RoundKeeps(c, requested, rank, was, wasDone, tasks, toRun, popped);
    }
  }

  lemma {:induction false} NothingScheduled(c: Commands, ns: seq<Name>)
    ensures Settled(c, ns, [])
  {
    if ns != [] {
      NothingScheduled(c, ns[1..]);
    }
  }

  /** Each iteration keeps all that and gets nearer the end. */
  lemma RoundKeeps(c: Commands, requested: seq<Task>, rank: map<Name, nat>, was: seq<Task>, wasDone: seq<Name>,
                   tasks: seq<Task>, done: seq<Name>, popped: bool)
    requires WellFormed(c) && LoopInv(c, requested, was, wasDone) && Settled(c, NamesOf(was), wasDone) && Covers(c, rank, was)
    requires was != [] && RoundDone(c, was, wasDone, tasks, done, popped)
    ensures LoopInv(c, requested, tasks, done) && Settled(c, NamesOf(tasks), done) && Covers(c, rank, tasks)
    ensures Outcome(c, rank, tasks, done) == Outcome(c, rank, was, wasDone)
    ensures |Left(c, done)| <= |Left(c, wasDone)|
    ensures |Left(c, done)| < |Left(c, wasDone)|
            || (was[0].name in wasDone && (tasks == [] || tasks[0].name !in done || |tasks| < |was|))
            || (was[0].name !in wasDone && tasks != [] && tasks[0].name !in done && rank[tasks[0].name] < rank[was[0].name])
  {
    hide Outcome, Settled, LoopInv;
    if popped {
      PopKeepsInv(c, requested, was, wasDone);
      SettledAfterPop(c, was, wasDone);
      PopKeepsOrder(c, rank, was, wasDone);
      if was[0].name !in wasDone {
        LeftShrinks(c, wasDone, was[0].name);
      }
    } else {
      MoveKeepsInv(c, requested, was, tasks, done);
      SettledAfterMove(c, was, tasks, done);
      MoveKeepsOrder(c, rank, was, done, tasks);
    }
  }
}
