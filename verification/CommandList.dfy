/**
 The work list of idf.py's command scheduler: its operations, one iteration of the loop, and the lists for which
 the loop does not end.
 */
module CommandList {

  type Name = string

  /** A task object: its command's name and its identity. */
  datatype Task = Task(name: Name, id: nat)

  /** The defined commands with their dependencies and order-only dependencies. */
  datatype Commands = Commands(deps: map<Name, seq<Name>>, orderDeps: map<Name, seq<Name>>)

  /** Every command is defined, and so are its dependencies. */
  predicate Defined(c: Commands, n: Name) {
    n in c.deps && n in c.orderDeps
  }

  ghost predicate WellFormed(c: Commands) {
    forall n, d :: Defined(c, n) && d in c.deps[n] ==> Defined(c, d)
  }

  /** Closed under dependencies. */
  ghost predicate Closed(c: Commands, ns: set<Name>) {
    forall n, d :: n in ns && Defined(c, n) && d in c.deps[n] ==> d in ns
  }

  /** `rank` witnesses that among the commands it covers, dependencies and order-only dependencies
      never lead back. */
  ghost predicate Ranks(c: Commands, rank: map<Name, nat>) {
    && Closed(c, rank.Keys)
    && (forall n, d :: n in rank && Defined(c, n) && d in c.deps[n] ==> rank[d] < rank[n])
    && (forall n, d :: n in rank && Defined(c, n) && d in c.orderDeps[n] && d in rank ==> rank[d] < rank[n])
  }

  function AllNames(c: Commands): set<Name> {
    c.deps.Keys * c.orderDeps.Keys
  }

  // ---------------------------------------------------------------- what a good order is

  ghost predicate NoRepeats(ns: seq<Name>) {
    forall i, j :: 0 <= i < j < |ns| ==> ns[i] != ns[j]
  }

  /** Every command comes after all its dependencies. */
  ghost predicate DependenciesFirst(c: Commands, ns: seq<Name>) {
    forall i :: 0 <= i < |ns| ==> Defined(c, ns[i]) && forall d :: d in c.deps[ns[i]] ==> d in ns[..i]
  }

  /** Every command comes after those of its order-only dependencies that are in `asked`. */
  ghost predicate OrderRespected(c: Commands, ns: seq<Name>, asked: seq<Task>) {
    forall i :: 0 <= i < |ns| ==>
                  Defined(c, ns[i]) && forall d :: d in c.orderDeps[ns[i]] && Named(asked, d) ==> d in ns[..i]
  }

  predicate Named(ts: seq<Task>, n: Name) {
    exists i :: 0 <= i < |ts| && ts[i].name == n
  }

  ghost predicate AllIn(ts: seq<Task>, ns: set<Name>) {
    forall i :: 0 <= i < |ts| ==> ts[i].name in ns
  }

  // ---------------------------------------------------------------- list operations

  /** The entry of the name-to-task dictionary: the last task with that name. */
  function Lookup(ts: seq<Task>, n: Name): (t: Task)
    requires Named(ts, n)
    ensures t in ts && t.name == n
  {
    var last := |ts| - 1;
    if ts[last].name == n then ts[last]
    else
      var i :| 0 <= i < |ts| && ts[i].name == n;
      assert ts[..last][i].name == n;
      Lookup(ts[..last], n)
  }

  // tasks.pop(tasks.index(t)) followed by tasks.insert(0, t)
  method MoveToFront(ts: seq<Task>, t: Task) returns (r: seq<Task>)
    requires t in ts
    ensures |r| == |ts| && r[0] == t && forall u :: u in r <==> u in ts
    ensures ToFront(NamesOf(ts), t.name, NamesOf(r))
  {
    hide ToFront, NamesOf;
    ghost var k :| 0 <= k < |ts| && ts[k] == t;
    var i := 0;
    while ts[i] != t
      invariant i <= k
      decreases k - i
    {
      i := i + 1;
    }
    r := [t] + ts[..i] + ts[i + 1..];
    assert ts == ts[..i] + [t] + ts[i + 1..];
    NamesOfMoved(ts, i, r);
  }

  lemma NamesOfMoved(ts: seq<Task>, i: nat, r: seq<Task>)
    requires i < |ts| && r == [ts[i]] + ts[..i] + ts[i + 1..]
    ensures ToFront(NamesOf(ts), ts[i].name, NamesOf(r))
  {
    assert NamesOf(r) == [ts[i].name] + Without(NamesOf(ts), i);
  }

  function Without(ns: seq<Name>, i: nat): seq<Name>
    requires i < |ns|
  {
    ns[..i] + ns[i + 1..]
  }

  /** `n` was put in front, where it was new or taken from its place. */
  ghost predicate ToFront(a: seq<Name>, n: Name, b: seq<Name>) {
    b == [n] + a || exists i {:trigger Without(a, i)} :: 0 <= i < |a| && a[i] == n && b == [n] + Without(a, i)
  }

  /** One after the other, these names were put in front. */
  ghost predicate AllToFront(a: seq<Name>, ns: seq<Name>, b: seq<Name>) {
    if ns == [] then b == a
    else exists m {:trigger ToFront(m, Last(ns), b)} :: AllToFront(a, ns[..|ns| - 1], m) && ToFront(m, Last(ns), b)
  }

  function Last(ns: seq<Name>): Name
    requires ns != []
  {
    ns[|ns| - 1]
  }

  lemma OneMoreToFront(a: seq<Name>, ns: seq<Name>, m: seq<Name>, n: Name, b: seq<Name>)
    requires AllToFront(a, ns, m) && ToFront(m, n, b)
    ensures AllToFront(a, ns + [n], b)
  {
    hide ToFront;
    assert (ns + [n])[..|ns|] == ns && Last(ns + [n]) == n;
  }

  lemma {:induction false} AllToFrontInTurn(a: seq<Name>, ns: seq<Name>, m: seq<Name>, ms: seq<Name>, b: seq<Name>)
    requires AllToFront(a, ns, m) && AllToFront(m, ms, b)
    ensures AllToFront(a, ns + ms, b)
    decreases |ms|
  {
    if ms == [] {
      assert ns + ms == ns;
    } else {
      hide ToFront;
      var last := |ms| - 1;
      var x :| AllToFront(m, ms[..last], x) && ToFront(x, Last(ms), b);
      hide AllToFront;
      AllToFrontInTurn(a, ns, m, ms[..last], x);
      OneMoreToFront(a, ns + ms[..last], x, ms[last], b);
      assert ns + ms[..last] + [ms[last]] == ns + ms;
    }
  }

  // ---------------------------------------------------------------- what a command waits for

  function DepsOf(c: Commands, n: Name): seq<Name> {
    if n in c.deps then c.deps[n] else []
  }

  function OrderDepsOf(c: Commands, n: Name): seq<Name> {
    if n in c.orderDeps then c.orderDeps[n] else []
  }

  /** Those of `ds` that are not scheduled. */
  function Undone(ds: seq<Name>, done: seq<Name>): seq<Name> {
    if ds == [] then []
    else
      var last := |ds| - 1;
      Undone(ds[..last], done) + if ds[last] in done then [] else [ds[last]]
  }

  /** Those of `ds` that are in the list, whose names are `pool`. */
  function Listed(ds: seq<Name>, pool: set<Name>): seq<Name> {
    if ds == [] then []
    else
      var last := |ds| - 1;
      Listed(ds[..last], pool) + if ds[last] in pool then [ds[last]] else []
  }

  /** What `n` has to wait for when `done` is scheduled and `pool` is in the list. */
  function Waits(c: Commands, n: Name, pool: set<Name>, done: seq<Name>): seq<Name> {
    Undone(DepsOf(c, n), done) + Undone(Listed(OrderDepsOf(c, n), pool), done)
  }

  lemma {:induction false} UndoneMembers(ds: seq<Name>, done: seq<Name>)
    ensures forall d :: d in Undone(ds, done) <==> d in ds && d !in done
  {
    if ds != [] {
      var last := |ds| - 1;
      UndoneMembers(ds[..last], done);
      assert ds == ds[..last] + [ds[last]];
    }
  }

  lemma {:induction false} ListedMembers(ds: seq<Name>, pool: set<Name>)
    ensures forall d :: d in Listed(ds, pool) <==> d in ds && d in pool
  {
    if ds != [] {
      var last := |ds| - 1;
      ListedMembers(ds[..last], pool);
      assert ds == ds[..last] + [ds[last]];
    }
  }

  lemma WaitsMembers(c: Commands, n: Name, pool: set<Name>, done: seq<Name>)
    ensures forall d :: d in Waits(c, n, pool, done) <==>
              d !in done && (d in DepsOf(c, n) || (d in OrderDepsOf(c, n) && d in pool))
  {
    UndoneMembers(DepsOf(c, n), done);
    ListedMembers(OrderDepsOf(c, n), pool);
    UndoneMembers(Listed(OrderDepsOf(c, n), pool), done);
  }

  function NamesOf(ts: seq<Task>): (ns: seq<Name>)
    ensures |ns| == |ts| && forall i :: 0 <= i < |ts| ==> ns[i] == ts[i].name
  {
    seq(|ts|, i requires 0 <= i < |ts| => ts[i].name)
  }

  function PoolOf(ts: seq<Task>): set<Name> {
    set i | 0 <= i < |ts| :: ts[i].name
  }

  lemma PoolIs(ts: seq<Task>)
    ensures forall n :: n in PoolOf(ts) <==> Named(ts, n)
    ensures forall n :: n in PoolOf(ts) <==> n in NamesOf(ts)
  {
    forall n | Named(ts, n)
      ensures n in NamesOf(ts)
    {
      var i :| 0 <= i < |ts| && ts[i].name == n;
      assert NamesOf(ts)[i] == n;
    }
  }

  // ---------------------------------------------------------------- one round of the loop

  /** How the list looks after moving dependencies of the front task: the front is now an
      unscheduled one of `wanted`, nothing has left the list, and only `wanted` names were added. */
  ghost predicate Moved(ts: seq<Task>, r: seq<Task>, wanted: seq<Name>, done: seq<Name>) {
    && r != [] && r[0].name in wanted && r[0].name !in done
    && Extends(ts, r, wanted)
  }

  ghost predicate Extends(ts: seq<Task>, r: seq<Task>, wanted: seq<Name>) {
    && (forall t :: t in ts ==> t in r)
    && (forall t :: t in r ==> t in ts || t.name in wanted)
  }

  // The loop over task.dependencies.
  method BringDependencies(ts: seq<Task>, deps: seq<Name>, done: seq<Name>, nextId: nat)
    returns (r: seq<Task>, processed: bool, freshId: nat)
    ensures processed ==> r == ts && forall d :: d in deps ==> d in done
    ensures !processed ==> Moved(ts, r, deps, done)
    ensures AllToFront(NamesOf(ts), Undone(deps, done), NamesOf(r))
  {
    hide ToFront, AllToFront, Undone;
    NothingToFront(NamesOf(ts), done);
    r, processed, freshId := ts, true, nextId;
    for k := 0 to |deps|
      invariant processed ==> r == ts && forall d :: d in deps[..k] ==> d in done
      invariant !processed ==> Moved(ts, r, deps, done)
      invariant Extends(ts, r, deps)
      invariant AllToFront(NamesOf(ts), Undone(deps[..k], done), NamesOf(r))
    {
      var dep := deps[k];
      ghost var was := r;
      UndoneStep(deps, k, done);
      if dep !in done {
        if Named(ts, dep) {
          r := MoveToFront(r, Lookup(ts, dep));
        } else {
          r := [Task(dep, freshId)] + r;
          NewToFront(was, Task(dep, freshId));
          freshId := freshId + 1;
        }
        OneMoreToFront(NamesOf(ts), Undone(deps[..k], done), NamesOf(was), dep, NamesOf(r));
        processed := false;
      }
    }
    assert deps[..|deps|] == deps;
  }

  // The loop over task.order_dependencies: only tasks that were in the list are moved.
  method BringOrderDependencies(ts: seq<Task>, start: seq<Task>, deps: seq<Name>, done: seq<Name>)
    returns (r: seq<Task>, processed: bool)
    requires forall t :: t in ts ==> t in start
    ensures processed ==> r == start && forall d :: d in deps && Named(ts, d) ==> d in done
    ensures !processed ==> Moved(start, r, deps, done) && forall t :: t in r <==> t in start
    ensures AllToFront(NamesOf(start), Undone(Listed(deps, PoolOf(ts)), done), NamesOf(r))
  {
    PoolIs(ts);
    ghost var pool := PoolOf(ts);
    hide ToFront, AllToFront, Undone, PoolOf;
    NothingToFront(NamesOf(start), done);
    assert Listed([], pool) == [];
    hide Listed;
    r, processed := start, true;
    for k := 0 to |deps|
      invariant processed ==> r == start && forall d :: d in deps[..k] && Named(ts, d) ==> d in done
      invariant !processed ==> Moved(start, r, deps, done)
      invariant forall t :: t in r <==> t in start
      invariant AllToFront(NamesOf(start), Undone(Listed(deps[..k], pool), done), NamesOf(r))
    {
      var dep := deps[k];
      ghost var was := r;
      ListedStep(deps, k, pool, done);
      if Named(ts, dep) && dep !in done {
        r := MoveToFront(r, Lookup(ts, dep));
        OneMoreToFront(NamesOf(start), Undone(Listed(deps[..k], pool), done), NamesOf(was), dep, NamesOf(r));
        processed := false;
      }
    }
    assert deps[..|deps|] == deps;
  }

  lemma NothingToFront(a: seq<Name>, done: seq<Name>)
    ensures AllToFront(a, Undone([], done), a)
  {
  }

  lemma NewToFront(ts: seq<Task>, t: Task)
    ensures ToFront(NamesOf(ts), t.name, NamesOf([t] + ts))
  {
    assert NamesOf([t] + ts) == [t.name] + NamesOf(ts);
  }

  lemma UndoneStep(deps: seq<Name>, k: nat, done: seq<Name>)
    requires k < |deps|
    ensures Undone(deps[..k + 1], done) == if deps[k] in done then Undone(deps[..k], done) else Undone(deps[..k], done) + [deps[k]]
  {
    assert deps[..k + 1][..k] == deps[..k];
  }

  lemma ListedStep(deps: seq<Name>, k: nat, pool: set<Name>, done: seq<Name>)
    requires k < |deps|
    ensures Undone(Listed(deps[..k + 1], pool), done) ==
            if deps[k] in pool && deps[k] !in done then Undone(Listed(deps[..k], pool), done) + [deps[k]]
            else Undone(Listed(deps[..k], pool), done)
  {
    assert deps[..k + 1][..k] == deps[..k];
    var l := Listed(deps[..k], pool);
    assert (l + [deps[k]])[..|l|] == l;
    assert l + [] == l && Undone(l, done) + [] == Undone(l, done);
  }

  /** The front task is behind everything it has to wait for. */
  ghost predicate Ready(c: Commands, ts: seq<Task>, done: seq<Name>)
    requires ts != [] && Defined(c, ts[0].name)
  {
    && (forall d :: d in c.deps[ts[0].name] ==> d in done)
    && (forall d :: d in c.orderDeps[ts[0].name] && Named(ts, d) ==> d in done)
  }

  /** What one iteration does to the list and the scheduled names. */
  ghost predicate RoundDone(c: Commands, ts: seq<Task>, done: seq<Name>, r: seq<Task>, done': seq<Name>, popped: bool)
    requires ts != [] && Defined(c, ts[0].name)
  {
    if popped then
      && Ready(c, ts, done) && r == ts[1..]
      && done' == if ts[0].name in done then done else done + [ts[0].name]
    else
      && done' == done && Moved(ts, r, c.deps[ts[0].name] + c.orderDeps[ts[0].name], done)
      && Extends(ts, r, c.deps[ts[0].name])
      && AllToFront(NamesOf(ts), Waits(c, ts[0].name, PoolOf(ts), done), NamesOf(r))
  }

  // One iteration of the while loop.
  method Round(c: Commands, ts: seq<Task>, done: seq<Name>, nextId: nat)
    returns (r: seq<Task>, done': seq<Name>, freshId: nat, popped: bool)
    requires ts != [] && Defined(c, ts[0].name)
    ensures RoundDone(c, ts, done, r, done', popped)
  {
    var name := ts[0].name;
    var processed, orderProcessed;
    r, processed, freshId := BringDependencies(ts, c.deps[name], done, nextId);
    ghost var mid := r;
    r, orderProcessed := BringOrderDependencies(ts, r, c.orderDeps[name], done);
    AllToFrontInTurn(NamesOf(ts), Undone(c.deps[name], done), NamesOf(mid), Undone(Listed(c.orderDeps[name], PoolOf(ts)), done), NamesOf(r));
    done' := done;
    popped := processed && orderProcessed;
    if popped {
      r := r[1..];
      if name !in done {
        done' := done + [name];
      }
    } else {
      assert r[0].name in c.deps[name] || r[0].name in c.orderDeps[name];
    }
  }

  // ---------------------------------------------------------------- circular dependencies

  /** The list and the scheduled names between two iterations. */
  datatype Situation = Situation(tasks: seq<Task>, done: seq<Name>)

  ghost predicate OneRound(c: Commands, x: Situation, y: Situation) {
    && x.tasks != [] && Defined(c, x.tasks[0].name)
    && (RoundDone(c, x.tasks, x.done, y.tasks, y.done, true) || RoundDone(c, x.tasks, x.done, y.tasks, y.done, false))
  }

  /** Any number of iterations, one after the other. */
  ghost predicate Rounds(c: Commands, run: seq<Situation>)
    decreases |run|
  {
    run != [] && (|run| == 1 || (OneRound(c, run[0], run[1]) && Rounds(c, run[1..])))
  }

  ghost predicate NeedsOneOf(c: Commands, circle: set<Name>, n: Name) {
    Defined(c, n) && exists d :: d in circle && d in c.deps[n]
  }

  ghost predicate WaitsForOneOf(c: Commands, circle: set<Name>, n: Name) {
    Defined(c, n) && exists d :: d in circle && (d in c.deps[n] || d in c.orderDeps[n])
  }

  /** Each command of the set needs one of the set. */
  ghost predicate Circle(c: Commands, circle: set<Name>) {
    forall n {:trigger NeedsOneOf(c, circle, n)} :: n in circle ==> NeedsOneOf(c, circle, n)
  }

  /** Each command of the set needs one of the set or has an order-only dependency in it. */
  ghost predicate OrderCircle(c: Commands, circle: set<Name>) {
    forall n {:trigger WaitsForOneOf(c, circle, n)} :: n in circle ==> WaitsForOneOf(c, circle, n)
  }

  ghost predicate NoneDone(circle: set<Name>, done: seq<Name>) {
    forall n :: n in done ==> n !in circle
  }

  /** None of the set is scheduled, and one of it is in the list. */
  ghost predicate OneWaits(circle: set<Name>, x: Situation) {
    NoneDone(circle, x.done) && exists t :: t in x.tasks && t.name in circle
  }

  /** None of the set is scheduled, and all of it is in the list. */
  ghost predicate AllWait(circle: set<Name>, x: Situation) {
    NoneDone(circle, x.done) && forall n :: n in circle ==> Named(x.tasks, n)
  }

  lemma CircleNotReady(c: Commands, circle: set<Name>, ts: seq<Task>, done: seq<Name>)
    requires Circle(c, circle) && ts != [] && Defined(c, ts[0].name)
    requires Ready(c, ts, done) && NoneDone(circle, done)
    ensures ts[0].name !in circle
  {
    assert ts[0].name in circle ==> NeedsOneOf(c, circle, ts[0].name);
  }

  lemma OrderCircleNotReady(c: Commands, circle: set<Name>, ts: seq<Task>, done: seq<Name>)
    requires OrderCircle(c, circle) && ts != [] && Defined(c, ts[0].name)
    requires Ready(c, ts, done) && NoneDone(circle, done) && forall n :: n in circle ==> Named(ts, n)
    ensures ts[0].name !in circle
  {
    assert ts[0].name in circle ==> WaitsForOneOf(c, circle, ts[0].name);
  }

  lemma OneStays(circle: set<Name>, ts: seq<Task>, r: seq<Task>)
    requires exists t :: t in ts && t.name in circle
    requires (forall t :: t in ts ==> t in r) || (ts != [] && r == ts[1..] && ts[0].name !in circle)
    ensures exists t :: t in r && t.name in circle
  {
    var t :| t in ts && t.name in circle;
    if !(forall t :: t in ts ==> t in r) {
      var i :| 0 <= i < |ts| && ts[i] == t;
      assert r[i - 1] == t;
    }
    assert t in r;
  }

  lemma NameStays(n: Name, ts: seq<Task>, r: seq<Task>)
    requires Named(ts, n)
    requires (forall t :: t in ts ==> t in r) || (ts != [] && r == ts[1..] && ts[0].name != n)
    ensures Named(r, n)
  {
    var i :| 0 <= i < |ts| && ts[i].name == n;
    if forall t :: t in ts ==> t in r {
      assert ts[i] in r;
    } else {
      assert r[i - 1].name == n;
    }
  }

  lemma CircleStays(c: Commands, circle: set<Name>, x: Situation, y: Situation)
    requires Circle(c, circle) && OneRound(c, x, y) && OneWaits(circle, x)
    ensures OneWaits(circle, y)
  {
    if RoundDone(c, x.tasks, x.done, y.tasks, y.done, true) {
      CircleNotReady(c, circle, x.tasks, x.done);
    }
    OneStays(circle, x.tasks, y.tasks);
  }

  /** With circular dependencies the loop does not end: if each command of a set needs one of the set and one
      of them is in the list, no iteration schedules any of them, and the list never gets empty. */
  lemma {:induction false} CircularNeverEnds(c: Commands, circle: set<Name>, run: seq<Situation>)
    requires Circle(c, circle) && Rounds(c, run) && OneWaits(circle, run[0])
    ensures OneWaits(circle, run[|run| - 1]) && run[|run| - 1].tasks != []
    decreases |run|
  {
    if |run| > 1 {
      CircleStays(c, circle, run[0], run[1]);
      CircularNeverEnds(c, circle, run[1..]);
    }
  }

  lemma OrderCircleStays(c: Commands, circle: set<Name>, x: Situation, y: Situation)
    requires OrderCircle(c, circle) && OneRound(c, x, y) && AllWait(circle, x)
    ensures AllWait(circle, y)
  {
    if RoundDone(c, x.tasks, x.done, y.tasks, y.done, true) {
      OrderCircleNotReady(c, circle, x.tasks, x.done);
    }
    forall n | n in circle
      ensures Named(y.tasks, n)
    {
      NameStays(n, x.tasks, y.tasks);
    }
  }

  /** Order-only dependencies in a circle, with or without others, have the same effect once all commands of the
      circle are in the list. */
  lemma {:induction false} CircularOrderNeverEnds(c: Commands, circle: set<Name>, run: seq<Situation>)
    requires OrderCircle(c, circle) && circle != {} && Rounds(c, run) && AllWait(circle, run[0])
    ensures AllWait(circle, run[|run| - 1]) && run[|run| - 1].tasks != []
    decreases |run|
  {
    if |run| > 1 {
      OrderCircleStays(c, circle, run[0], run[1]);
      CircularOrderNeverEnds(c, circle, run[1..]);
    } else {
      var n :| n in circle;
      assert Named(run[0].tasks, n);
    }
  }

  // ---------------------------------------------------------------- ranked or circular

  ghost predicate Rankable(c: Commands, n: Name) {
    exists rank: map<Name, nat> :: Ranks(c, rank) && n in rank
  }

  ghost predicate NoOrderDeps(c: Commands) {
    forall n :: n in c.orderDeps ==> c.orderDeps[n] == []
  }

  /** Ranks lead down out of every circle. */
  lemma {:induction false} RankedIsNotCircular(c: Commands, rank: map<Name, nat>, circle: set<Name>, n: Name)
    requires Ranks(c, rank) && Circle(c, circle) && n in rank
    ensures n !in circle
    decreases rank[n]
  {
    if n in circle {
      assert NeedsOneOf(c, circle, n);
      var d :| d in c.deps[n] && d in circle;
      RankedIsNotCircular(c, rank, circle, d);
    }
  }

  lemma {:induction false} RanksBounded(rank: map<Name, nat>, ns: set<Name>) returns (most: nat)
    requires ns <= rank.Keys
    ensures forall n :: n in ns ==> rank[n] < most
  {
    if ns == {} {
      most := 0;
    } else {
      var n :| n in ns;
      most := RanksBounded(rank, ns - {n});
      if most <= rank[n] {
        most := rank[n] + 1;
      }
    }
  }

  /** The commands of `b` that `a` does not cover behind those of `a`. */
  function Above(a: map<Name, nat>, b: map<Name, nat>, most: nat): map<Name, nat> {
    map n | n in a.Keys + b.Keys :: if n in a then a[n] else most + b[n]
  }

  lemma BothRanked(c: Commands, a: map<Name, nat>, b: map<Name, nat>) returns (rank: map<Name, nat>)
    requires Ranks(c, a) && Ranks(c, b) && NoOrderDeps(c)
    ensures Ranks(c, rank) && a.Keys <= rank.Keys && b.Keys <= rank.Keys
  {
    var most := RanksBounded(a, a.Keys);
    rank := Above(a, b, most);
  }

  lemma {:induction false} AllRanked(c: Commands, ns: seq<Name>) returns (rank: map<Name, nat>)
    requires NoOrderDeps(c) && forall n :: n in ns ==> Rankable(c, n)
    ensures Ranks(c, rank) && forall n :: n in ns ==> n in rank
  {
    if ns == [] {
      rank := map[];
    } else {
      var rest := AllRanked(c, ns[1..]);
      assert Rankable(c, ns[0]);
      var first :| Ranks(c, first) && ns[0] in first;
      rank := BothRanked(c, first, rest);
    }
  }

  /** A command all of whose dependencies can be ranked goes on top of them. */
  lemma RankableByDependencies(c: Commands, n: Name)
    requires NoOrderDeps(c) && Defined(c, n) && forall d :: d in c.deps[n] ==> Rankable(c, d)
    ensures Rankable(c, n)
  {
    var below := AllRanked(c, c.deps[n]);
    if n !in below {
      var most := RanksBounded(below, below.Keys);
      assert Ranks(c, below[n := most]);
    }
  }

  ghost function Unrankable(c: Commands): set<Name> {
    set n | n in AllNames(c) && !Rankable(c, n)
  }

  lemma UnrankableIsCircle(c: Commands)
    requires WellFormed(c) && NoOrderDeps(c)
    ensures Circle(c, Unrankable(c))
  {
    var circle := Unrankable(c);
    forall n | n in circle
      ensures NeedsOneOf(c, circle, n)
    {
      assert Defined(c, n);
      if forall d :: d in c.deps[n] ==> Rankable(c, d) {
        RankableByDependencies(c, n);
      } else {
        var d :| d in c.deps[n] && !Rankable(c, d);
        assert Defined(c, d) && d in circle;
      }
    }
  }

  /** Without order-only dependencies these are the two cases: what is requested can be ranked, and `Schedule` ends,
      if and only if no requested command is in a set of which each command needs another, for which it does not
      end (`CircularNeverEnds`). */
  lemma RankedIffNotCircular(c: Commands, requested: seq<Task>)
    requires WellFormed(c) && NoOrderDeps(c) && forall t :: t in requested ==> Defined(c, t.name)
    ensures (exists rank: map<Name, nat> :: Ranks(c, rank) && AllIn(requested, rank.Keys))
            <==> !(exists circle :: Circle(c, circle) && OneWaits(circle, Situation(requested, [])))
  {
    if rank: map<Name, nat> :| Ranks(c, rank) && AllIn(requested, rank.Keys) {
      forall circle, t | Circle(c, circle) && t in requested
        ensures t.name !in circle
      {
        RankedIsNotCircular(c, rank, circle, t.name);
      }
    } else {
      UnrankableIsCircle(c);
      var names := seq(|requested|, i requires 0 <= i < |requested| => requested[i].name);
      if forall t :: t in requested ==> Rankable(c, t.name) {
        var rank := AllRanked(c, names);
        forall i | 0 <= i < |requested|
          ensures requested[i].name in rank
        {
          assert names[i] in names;
        }
      } else {
        assert OneWaits(Unrankable(c), Situation(requested, []));
      }
    }
  }
}
