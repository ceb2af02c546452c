/** Bounded reachability over a finite set of arcs: balls, walks, exact distances, and the
    invariant shared by every queue-driven breadth-first search of the repository. */
module Reachability {

  /** The vertices reached by one arc out of `from`. */
  function Heads<V>(arcs: set<(V, V)>, from: set<V>): set<V> {
    set a | a in arcs && a.0 in from :: a.1
  }

  function ArcsFrom<V(==)>(arcs: set<(V, V)>, v: V): set<(V, V)> {
    set a | a in arcs && a.0 == v
  }

  /** The vertices at distance at most `n` from `root`. */
  function Ball<V>(arcs: set<(V, V)>, root: V, n: nat): set<V> {
    if n == 0 then {root} else Ball(arcs, root, n - 1) + Heads(arcs, Ball(arcs, root, n - 1))
  }

  /** `v` is at distance exactly `n` from `root`. */
  ghost predicate AtDist<V>(arcs: set<(V, V)>, root: V, v: V, n: nat) {
    v in Ball(arcs, root, n) && (n > 0 ==> v !in Ball(arcs, root, n - 1))
  }

  /** A sequence of vertices joined by arcs; its length in hops is `|p| - 1`. */
  ghost predicate IsWalk<V>(arcs: set<(V, V)>, p: seq<V>) {
    |p| > 0 && forall i :: 0 <= i < |p| - 1 ==> (p[i], p[i + 1]) in arcs
  }

  ghost predicate WalkTo<V>(arcs: set<(V, V)>, root: V, v: V, p: seq<V>) {
    IsWalk(arcs, p) && p[0] == root && p[|p| - 1] == v
  }

  lemma {:induction false} BallMonotone<V>(arcs: set<(V, V)>, root: V, m: nat, n: nat)
    requires m <= n
    ensures Ball(arcs, root, m) <= Ball(arcs, root, n)
    decreases n
  {
    if m < n {
      BallMonotone(arcs, root, m, n - 1);
    }
  }

  lemma InWiderBall<V>(arcs: set<(V, V)>, root: V, m: nat, n: nat, v: V)
    requires m <= n && v in Ball(arcs, root, m)
    ensures v in Ball(arcs, root, n)
  {
    BallMonotone(arcs, root, m, n);
  }

  lemma {:induction false} NothingBeyond<V>(arcs: set<(V, V)>, root: V, m: nat, n: nat, v: V)
    requires m <= n && v in Ball(arcs, root, n)
    requires Heads(arcs, Ball(arcs, root, m)) <= Ball(arcs, root, m)
    ensures v in Ball(arcs, root, m)
    decreases n
  {
    if m < n {
      if v in Ball(arcs, root, n - 1) {
        NothingBeyond(arcs, root, m, n - 1, v);
      } else {
        var a :| a in arcs && a.0 in Ball(arcs, root, n - 1) && a.1 == v;
        NothingBeyond(arcs, root, m, n - 1, a.0);
        assert v in Heads(arcs, Ball(arcs, root, m));
      }
    }
  }

  /** A ball that nothing leaves is as large as any wider one. */
  lemma BallFixpoint<V>(arcs: set<(V, V)>, root: V, m: nat, n: nat)
    requires m <= n
    requires Heads(arcs, Ball(arcs, root, m)) <= Ball(arcs, root, m)
    ensures Ball(arcs, root, n) == Ball(arcs, root, m)
  {
    BallMonotone(arcs, root, m, n);
    forall v | v in Ball(arcs, root, n) ensures v in Ball(arcs, root, m) {
      NothingBeyond(arcs, root, m, n, v);
    }
  }

  lemma {:induction false} WalkStaysInBall<V>(arcs: set<(V, V)>, root: V, v: V, p: seq<V>)
    requires WalkTo(arcs, root, v, p)
    ensures v in Ball(arcs, root, |p| - 1)
    decreases |p|
  {
    if |p| > 1 {
      var q := p[..|p| - 1];
      WalkStaysInBall(arcs, root, q[|q| - 1], q);
      assert (p[|p| - 2], p[|p| - 1]) in arcs;
    }
  }

  /** A walk no longer than the radius leads to each vertex of a ball. */
  lemma {:induction false} BallHasWalk<V>(arcs: set<(V, V)>, root: V, v: V, n: nat) returns (p: seq<V>)
    requires v in Ball(arcs, root, n)
    ensures WalkTo(arcs, root, v, p) && |p| <= n + 1
    decreases n
  {
    if n == 0 {
      p := [root];
    } else if v in Ball(arcs, root, n - 1) {
      p := BallHasWalk(arcs, root, v, n - 1);
    } else {
      var a :| a in arcs && a.0 in Ball(arcs, root, n - 1) && a.1 == v;
      var q := BallHasWalk(arcs, root, a.0, n - 1);
      p := q + [v];
      forall i | 0 <= i < |p| - 1 ensures (p[i], p[i + 1]) in arcs {
        if i == |p| - 2 {
          assert (p[i], p[i + 1]) == a;
        } else {
          assert (q[i], q[i + 1]) in arcs;
        }
      }
    }
  }

  /** Balls are exactly the ends of short walks. */
  lemma BallIsShortWalks<V>(arcs: set<(V, V)>, root: V, v: V, n: nat)
    ensures v in Ball(arcs, root, n) <==> exists p :: WalkTo(arcs, root, v, p) && |p| <= n + 1
  {
    if v in Ball(arcs, root, n) {
      var p := BallHasWalk(arcs, root, v, n);
    }
    forall p | WalkTo(arcs, root, v, p) && |p| <= n + 1 ensures v in Ball(arcs, root, n) {
      WalkStaysInBall(arcs, root, v, p);
      BallMonotone(arcs, root, |p| - 1, n);
    }
  }

  /** `AtDist` is the length of a shortest walk. */
  lemma AtDistIsShortestWalk<V>(arcs: set<(V, V)>, root: V, v: V, n: nat)
    ensures AtDist(arcs, root, v, n) <==>
              && (exists p :: WalkTo(arcs, root, v, p) && |p| == n + 1)
              && (forall p :: WalkTo(arcs, root, v, p) ==> n + 1 <= |p|)
  {
    if AtDist(arcs, root, v, n) {
      forall p | WalkTo(arcs, root, v, p) ensures n + 1 <= |p| {
        WalkStaysInBall(arcs, root, v, p);
        if |p| - 1 < n {
          BallMonotone(arcs, root, |p| - 1, n - 1);
        }
      }
      var p := BallHasWalk(arcs, root, v, n);
    }
    if (exists p :: WalkTo(arcs, root, v, p) && |p| == n + 1)
       && (forall p :: WalkTo(arcs, root, v, p) ==> n + 1 <= |p|) {
      var p :| WalkTo(arcs, root, v, p) && |p| == n + 1;
      WalkStaysInBall(arcs, root, v, p);
      if n > 0 && v in Ball(arcs, root, n - 1) {
        var q := BallHasWalk(arcs, root, v, n - 1);
      }
    }
  }

  lemma AtDistUnique<V>(arcs: set<(V, V)>, root: V, v: V, m: nat, n: nat)
    requires AtDist(arcs, root, v, m) && AtDist(arcs, root, v, n)
    ensures m == n
  {
    if m < n {
      BallMonotone(arcs, root, m, n - 1);
    } else if n < m {
      BallMonotone(arcs, root, n, m - 1);
    }
  }

  /** The distance from `root` to `v`, if it is at most `n`. */
  ghost function Dist<V>(arcs: set<(V, V)>, root: V, v: V, n: nat): (d: int)
    ensures v in Ball(arcs, root, n) ==> 0 <= d <= n && AtDist(arcs, root, v, d)
    ensures v !in Ball(arcs, root, n) ==> d == -1
  {
    if v !in Ball(arcs, root, n) then -1
    else if n == 0 || v !in Ball(arcs, root, n - 1) then n
    else Dist(arcs, root, v, n - 1)
  }

  function Min(a: nat, b: nat): nat {
    if a < b then a else b
  }

  /** The balls of `sub` are those of `arcs`, cut off at radius `d`. */
  ghost predicate Truncates<V>(arcs: set<(V, V)>, sub: set<(V, V)>, root: V, d: nat) {
    forall n: nat :: Ball(sub, root, n) == Ball(arcs, root, Min(n, d))
  }

  /** The same arcs leave the ball of radius `i`, as far as their heads go. */
  ghost predicate LeavesAlike<V>(arcs: set<(V, V)>, sub: set<(V, V)>, root: V, i: nat) {
    Heads(sub, Ball(arcs, root, i)) == Heads(arcs, Ball(arcs, root, i))
  }

  lemma BallKeepsUp<V>(arcs: set<(V, V)>, sub: set<(V, V)>, root: V, n: nat)
    requires Ball(sub, root, n) == Ball(arcs, root, n) && LeavesAlike(arcs, sub, root, n)
    ensures Ball(sub, root, n + 1) == Ball(arcs, root, n + 1)
  {
  }

  lemma BallsAlike<V>(arcs: set<(V, V)>, sub: set<(V, V)>, root: V, d: nat, n: nat)
    requires n <= d && forall i: nat :: i < d ==> LeavesAlike(arcs, sub, root, i)
    ensures Ball(sub, root, n) == Ball(arcs, root, n)
  {
    var m := 0;
    while m < n
      invariant m <= n && Ball(sub, root, m) == Ball(arcs, root, m)
    {
      BallKeepsUp(arcs, sub, root, m);
      m := m + 1;
    }
  }

  lemma BallsTruncate<V>(arcs: set<(V, V)>, sub: set<(V, V)>, root: V, d: nat)
    requires forall i: nat :: i < d ==> LeavesAlike(arcs, sub, root, i)
    requires Heads(sub, Ball(arcs, root, d)) <= Ball(arcs, root, d)
    ensures Truncates(arcs, sub, root, d)
  {
    forall n: nat ensures Ball(sub, root, n) == Ball(arcs, root, Min(n, d)) {
      if n <= d {
        BallsAlike(arcs, sub, root, d, n);
      } else {
        BallsAlike(arcs, sub, root, d, d);
        BallFixpoint(sub, root, d, n);
      }
    }
  }

  /** So are the distances, and nothing is farther than `d`. */
  lemma TruncatedDistance<V>(arcs: set<(V, V)>, sub: set<(V, V)>, root: V, d: nat, v: V, n: nat)
    requires Truncates(arcs, sub, root, d) && AtDist(sub, root, v, n)
    ensures n <= d && AtDist(arcs, root, v, n)
  {
    assert Ball(sub, root, n) == Ball(arcs, root, Min(n, d));
    if n > 0 {
      assert Ball(sub, root, n - 1) == Ball(arcs, root, Min(n - 1, d));
    }
  }

  /** A full search of `sub` has met exactly the ball of radius `d` of `arcs`, at its distances. */
  lemma TruncatedSearch<V>(arcs: set<(V, V)>, sub: set<(V, V)>, root: V, d: nat, depth: map<V, nat>, low: nat)
    requires Truncates(arcs, sub, root, d)
    requires Searching(sub, root, -1, depth, [], low, {})
    ensures forall v :: v in depth <==> v in Ball(arcs, root, d)
    ensures forall v :: v in depth ==> depth[v] <= d && AtDist(arcs, root, v, depth[v])
  {
    forall v | v in depth ensures depth[v] <= d && AtDist(arcs, root, v, depth[v]) && v in Ball(arcs, root, d) {
      TruncatedDistance(arcs, sub, root, d, v, depth[v]);
      BallMonotone(arcs, root, depth[v], d);
    }
    FullSearchEnds(sub, root, depth, low, d);
    assert Ball(sub, root, d) == Ball(arcs, root, Min(d, d));
  }

  // ---------------------------------------------------------------- level-by-level search

  /** One level of a level-by-level search: `visited` is the ball of radius `h` plus the ends of
      the arcs followed so far, and `next` lists what is new. */
  ghost predicate Sweeping<V(!new)>(arcs: set<(V, V)>, root: V, h: nat, used: set<(V, V)>,
                              visited: set<V>, next: seq<V>)
  {
    && used <= arcs
    && (forall a :: a in used ==> a.0 in Ball(arcs, root, h))
    && visited == Ball(arcs, root, h) + (set a | a in used :: a.1)
    && (forall v :: v in next <==> v in visited && v !in Ball(arcs, root, h))
  }

  lemma SweepFollows<V(!new)>(arcs: set<(V, V)>, root: V, h: nat, used: set<(V, V)>, visited: set<V>,
                        next: seq<V>, a: (V, V))
    requires Sweeping(arcs, root, h, used, visited, next)
    requires a in arcs && a.0 in Ball(arcs, root, h)
    ensures Sweeping(arcs, root, h, used + {a}, visited + {a.1}, if a.1 in visited then next else next + [a.1])
  {
  }

  /** A level whose outermost vertices all had their arcs followed completes the next ball. */
  lemma SweepCompletes<V(!new)>(arcs: set<(V, V)>, root: V, h: nat, used: set<(V, V)>, visited: set<V>, next: seq<V>)
    requires Sweeping(arcs, root, h, used, visited, next)
    requires forall a :: a in arcs && AtDist(arcs, root, a.0, h) ==> a in used
    ensures visited == Ball(arcs, root, h + 1)
    ensures forall v :: v in next <==> AtDist(arcs, root, v, h + 1)
  {
    forall a | a in arcs && a.0 in Ball(arcs, root, h) ensures a.1 in visited {
      if h > 0 && a.0 in Ball(arcs, root, h - 1) {
        assert a.1 in Heads(arcs, Ball(arcs, root, h - 1));
      } else {
        assert AtDist(arcs, root, a.0, h);
      }
    }
  }

  /** An empty outermost level means the search can go no farther. */
  lemma EmptyLevelStops<V(!new)>(arcs: set<(V, V)>, root: V, h: nat)
    requires forall v :: !AtDist(arcs, root, v, h)
    ensures h > 0 && forall m: nat :: h - 1 <= m ==> Ball(arcs, root, m) == Ball(arcs, root, h - 1)
  {
    EmptyLevelCloses(arcs, root, h);
    forall m: nat | h - 1 <= m ensures Ball(arcs, root, m) == Ball(arcs, root, h - 1) {
      BallFixpoint(arcs, root, h - 1, m);
    }
  }

  lemma EmptyLevelCloses<V(!new)>(arcs: set<(V, V)>, root: V, h: nat)
    requires forall v :: !AtDist(arcs, root, v, h)
    ensures h > 0 && Heads(arcs, Ball(arcs, root, h - 1)) <= Ball(arcs, root, h - 1)
  {
    if h == 0 {
      assert AtDist(arcs, root, root, h);
    }
    var inner := Ball(arcs, root, h - 1);
    forall v | v in Heads(arcs, inner) ensures v in inner {
      assert !AtDist(arcs, root, v, h);
    }
  }

  // ---------------------------------------------------------------- queue search

  /** Is a vertex found at depth `d` expanded? A negative limit means there is no depth bound. */
  predicate Expands(limit: int, d: nat) {
    limit < 0 || d < limit
  }

  /** The invariant of a queue-driven search. `depth` holds every vertex met so far, `queue` the
      ones still to be expanded, all at depth `low` or `low + 1` in that order; `pending` is the
      set of arcs that may still lead somewhere new although their tail has left the queue. */
  ghost predicate Searching<V>(arcs: set<(V, V)>, root: V, limit: int, depth: map<V, nat>,
                               queue: seq<V>, low: nat, pending: set<(V, V)>)
  {
    && root in depth && depth[root] == 0
    && Measured(arcs, root, limit, depth)
    && Waiting(depth, queue, low)
    && Explored(arcs, limit, depth, queue, pending)
  }

  ghost predicate Measured<V>(arcs: set<(V, V)>, root: V, limit: int, depth: map<V, nat>) {
    forall v {:trigger depth[v]} :: v in depth ==> AtDist(arcs, root, v, depth[v]) && (0 <= limit ==> depth[v] <= limit)
  }

  ghost predicate Waiting<V>(depth: map<V, nat>, queue: seq<V>, low: nat) {
    && (forall i :: 0 <= i < |queue| ==> queue[i] in depth && low <= depth[queue[i]] <= low + 1)
    && (forall i, j :: 0 <= i < j < |queue| ==> queue[i] != queue[j] && depth[queue[i]] <= depth[queue[j]])
  }

  ghost predicate Explored<V>(arcs: set<(V, V)>, limit: int, depth: map<V, nat>, queue: seq<V>,
                              pending: set<(V, V)>)
  {
    forall a {:trigger a in arcs, depth[a.0]} :: a in arcs && a !in pending && a.0 in depth && a.0 !in queue && Expands(limit, depth[a.0])
      ==> a.1 in depth
  }

  lemma SearchStarts<V>(arcs: set<(V, V)>, root: V, limit: int)
    ensures Searching(arcs, root, limit, map[root := 0], [root], 0, {})
  {
  }

  /** Every vertex at distance at most `n` has been met once all vertices nearer than `n` are expanded. */
  lemma {:induction false} NearVerticesMet<V>(arcs: set<(V, V)>, root: V, limit: int, depth: map<V, nat>,
                                              queue: seq<V>, low: nat, n: nat)
    requires Searching(arcs, root, limit, depth, queue, low, {})
    requires n <= low
    requires 0 <= limit ==> n <= limit
    ensures Ball(arcs, root, n) <= depth.Keys
    decreases n
  {
    if n > 0 {
      NearVerticesMet(arcs, root, limit, depth, queue, low, n - 1);
      NextVerticesMet(arcs, root, limit, depth, queue, low, n - 1);
    }
  }

  lemma NextVerticesMet<V>(arcs: set<(V, V)>, root: V, limit: int, depth: map<V, nat>, queue: seq<V>, low: nat, n: nat)
    requires Searching(arcs, root, limit, depth, queue, low, {}) && Ball(arcs, root, n) <= depth.Keys
    requires n < low && (0 <= limit ==> n < limit)
    ensures Heads(arcs, Ball(arcs, root, n)) <= depth.Keys
  {
    forall a | a in arcs && a.0 in Ball(arcs, root, n) ensures a.1 in depth {
      DepthWithinBall(arcs, root, depth, a.0, n);
    }
  }

  lemma StepOn<V>(arcs: set<(V, V)>, root: V, u: V, v: V, n: nat)
    requires (u, v) in arcs
    ensures u in Ball(arcs, root, n) ==> v in Ball(arcs, root, n + 1)
  {
    if u in Ball(arcs, root, n) {
      assert v in Heads(arcs, Ball(arcs, root, n));
    }
  }

  /** One step before a vertex at distance `n + 1`, within `n`, is at distance exactly `n`. */
  lemma StepBack<V>(arcs: set<(V, V)>, root: V, u: V, v: V, n: nat)
    requires (u, v) in arcs && u in Ball(arcs, root, n) && AtDist(arcs, root, v, n + 1)
    ensures AtDist(arcs, root, u, n)
  {
    if n > 0 {
      StepOn(arcs, root, u, v, n - 1);
    }
  }

  lemma NoShorter<V>(arcs: set<(V, V)>, root: V, v: V, d: nat, n: nat)
    requires AtDist(arcs, root, v, d) && v in Ball(arcs, root, n)
    ensures d <= n
  {
    if n < d {
      InWiderBall(arcs, root, n, d - 1, v);
    }
  }

  lemma DepthWithinBall<V>(arcs: set<(V, V)>, root: V, depth: map<V, nat>, v: V, n: nat)
    requires v in depth && AtDist(arcs, root, v, depth[v])
    requires v in Ball(arcs, root, n)
    ensures depth[v] <= n
  {
    NoShorter(arcs, root, v, depth[v], n);
  }

  /** The head of the queue is taken out; its own arcs become pending and the level moves up to it. */
  lemma SearchTakes<V>(arcs: set<(V, V)>, root: V, limit: int, depth: map<V, nat>, queue: seq<V>, low: nat)
    requires Searching(arcs, root, limit, depth, queue, low, {})
    requires |queue| > 0
    ensures Searching(arcs, root, limit, depth, queue[1..], depth[queue[0]],
                      ArcsFrom(arcs, queue[0]))
    ensures queue[0] !in queue[1..]
    ensures Ball(arcs, root, depth[queue[0]]) <= depth.Keys
  {
    var cur := queue[0];
    var rest := queue[1..];
    assert Searching(arcs, root, limit, depth, queue, depth[cur], {});
    NearVerticesMet(arcs, root, limit, depth, queue, depth[cur], depth[cur]);
    forall i | 0 <= i < |rest| ensures rest[i] != cur {
      assert rest[i] == queue[i + 1];
    }
    assert queue == [cur] + rest;
  }

  lemma NextAtDist<V>(arcs: set<(V, V)>, root: V, cur: V, next: V, depth: map<V, nat>)
    requires cur in depth && AtDist(arcs, root, cur, depth[cur])
    requires Ball(arcs, root, depth[cur]) <= depth.Keys
    requires (cur, next) in arcs && next !in depth
    ensures AtDist(arcs, root, next, depth[cur] + 1)
  {
    assert (cur, next).1 in Heads(arcs, Ball(arcs, root, depth[cur]));
  }

  lemma MeasuredGrows<V>(arcs: set<(V, V)>, root: V, limit: int, depth: map<V, nat>, cur: V, next: V)
    requires Measured(arcs, root, limit, depth)
    requires cur in depth && Expands(limit, depth[cur])
    requires Ball(arcs, root, depth[cur]) <= depth.Keys
    requires (cur, next) in arcs && next !in depth
    ensures Measured(arcs, root, limit, depth[next := depth[cur] + 1])
  {
    NextAtDist(arcs, root, cur, next, depth);
  }

  lemma WaitingGrows<V>(depth: map<V, nat>, queue: seq<V>, low: nat, next: V)
    requires Waiting(depth, queue, low) && next !in depth
    ensures Waiting(depth[next := low + 1], queue + [next], low)
  {
  }

  lemma ExploredGrows<V>(arcs: set<(V, V)>, limit: int, depth: map<V, nat>, queue: seq<V>,
                         pending: set<(V, V)>, d: nat, next: V)
    requires Explored(arcs, limit, depth, queue, pending) && next !in depth
    ensures Explored(arcs, limit, depth[next := d], queue + [next], pending)
  {
    forall a | a in arcs && a !in pending && a.0 in depth[next := d] && a.0 !in queue + [next]
               && Expands(limit, depth[next := d][a.0])
      ensures a.1 in depth[next := d]
    {
      assert next in queue + [next];
      assert a.0 != next && a.0 in depth;
    }
  }

  /** A vertex met for the first time from `cur` is one step farther than `cur`. */
  lemma SearchFinds<V>(arcs: set<(V, V)>, root: V, limit: int, depth: map<V, nat>, queue: seq<V>,
                       pending: set<(V, V)>, cur: V, next: V)
    requires cur in depth && cur !in queue && Expands(limit, depth[cur])
    requires Searching(arcs, root, limit, depth, queue, depth[cur], pending)
    requires Ball(arcs, root, depth[cur]) <= depth.Keys
    requires (cur, next) in arcs && next !in depth
    ensures Searching(arcs, root, limit, depth[next := depth[cur] + 1], queue + [next], depth[cur], pending)
    ensures cur !in queue + [next]
  {
    MeasuredGrows(arcs, root, limit, depth, cur, next);
    WaitingGrows(depth, queue, depth[cur], next);
    ExploredGrows(arcs, limit, depth, queue, pending, depth[cur] + 1, next);
  }

  /** Once `cur`'s arcs all lead to vertices met, none is pending any more. */
  lemma SearchSettles<V>(arcs: set<(V, V)>, root: V, limit: int, depth: map<V, nat>, queue: seq<V>,
                         low: nat, cur: V)
    requires cur in depth
    requires Searching(arcs, root, limit, depth, queue, low, ArcsFrom(arcs, cur))
    requires Expands(limit, depth[cur]) ==> Heads(arcs, {cur}) <= depth.Keys
    ensures Searching(arcs, root, limit, depth, queue, low, {})
  {
    forall a | a in arcs && a.0 == cur && Expands(limit, depth[cur]) ensures a.1 in depth {
      assert a.1 in Heads(arcs, {cur});
    }
  }

  /** A finished bounded search has met exactly the ball of its radius, each vertex at its distance. */
  lemma SearchEnds<V>(arcs: set<(V, V)>, root: V, limit: nat, depth: map<V, nat>, low: nat)
    requires Searching(arcs, root, limit, depth, [], low, {})
    ensures depth.Keys == Ball(arcs, root, limit)
    ensures forall v :: v in depth ==> AtDist(arcs, root, v, depth[v])
  {
    assert Searching(arcs, root, limit, depth, [], limit, {});
    NearVerticesMet(arcs, root, limit, depth, [], limit, limit);
    forall v | v in depth ensures v in Ball(arcs, root, limit) {
      BallMonotone(arcs, root, depth[v], limit);
    }
  }

  /** A finished unbounded search has met every vertex that can be reached. */
  lemma FullSearchEnds<V>(arcs: set<(V, V)>, root: V, depth: map<V, nat>, low: nat, n: nat)
    requires Searching(arcs, root, -1, depth, [], low, {})
    ensures Ball(arcs, root, n) <= depth.Keys
    ensures forall v :: v in depth ==> AtDist(arcs, root, v, depth[v])
  {
    assert Searching(arcs, root, -1, depth, [], n, {});
    NearVerticesMet(arcs, root, -1, depth, [], n, n);
  }

  // ---------------------------------------------------------------- expanding one vertex

  ghost predicate ReadyToExpand<V>(arcs: set<(V, V)>, root: V, limit: int, depth: map<V, nat>,
                                   queue: seq<V>, cur: V)
  {
    && cur in depth && cur !in queue && Expands(limit, depth[cur])
    && Searching(arcs, root, limit, depth, queue, depth[cur], ArcsFrom(arcs, cur))
    && Ball(arcs, root, depth[cur]) <= depth.Keys
  }

  /** The vertices met and the queue only grow, and what is new waits at the end of the queue. */
  ghost predicate Extends<V>(depth: map<V, nat>, queue: seq<V>, depth': map<V, nat>, queue': seq<V>) {
    && queue <= queue'
    && (forall v :: v in depth ==> v in depth' && depth'[v] == depth[v])
    && (forall v :: v in depth' && v !in depth ==> v in queue' && depth'[v] > 0)
    && (forall v :: v in queue' ==> v in queue || v !in depth)
  }

  lemma ExtendsGrows<V>(depth: map<V, nat>, queue: seq<V>, depth': map<V, nat>, queue': seq<V>, next: V, d: nat)
    requires Extends(depth, queue, depth', queue') && next !in depth' && d > 0
    ensures Extends(depth, queue, depth'[next := d], queue' + [next])
  {
    var q := queue' + [next];
    assert q[|queue'|] == next;
  }

  /** The search state while the arcs of `cur` are being followed, relative to the state before. */
  ghost predicate Expanding<V>(arcs: set<(V, V)>, root: V, limit: int, depth: map<V, nat>, queue: seq<V>,
                               cur: V, depth': map<V, nat>, queue': seq<V>)
  {
    && cur in depth
    && ReadyToExpand(arcs, root, limit, depth', queue', cur)
    && Extends(depth, queue, depth', queue')
  }

  lemma ExpandStarts<V>(arcs: set<(V, V)>, root: V, limit: int, depth: map<V, nat>, queue: seq<V>, cur: V)
    requires ReadyToExpand(arcs, root, limit, depth, queue, cur)
    ensures Expanding(arcs, root, limit, depth, queue, cur, depth, queue)
  {
  }

  lemma ExpandFinds<V>(arcs: set<(V, V)>, root: V, limit: int, depth: map<V, nat>, queue: seq<V>,
                       cur: V, depth': map<V, nat>, queue': seq<V>, next: V)
    requires Expanding(arcs, root, limit, depth, queue, cur, depth', queue')
    requires (cur, next) in arcs && next !in depth'
    ensures Expanding(arcs, root, limit, depth, queue, cur, depth'[next := depth'[cur] + 1], queue' + [next])
  {
    StaysReady(arcs, root, limit, depth', queue', cur, next);
    ExtendsGrows(depth, queue, depth', queue', next, depth'[cur] + 1);
  }

  /** Meeting `next` from `cur`: nothing happens if it was met before, else it is one step farther and queued. */
  ghost predicate Meets<V>(depth: map<V, nat>, queue: seq<V>, cur: V, next: V, depth': map<V, nat>, queue': seq<V>) {
    && cur in depth
    && if next in depth then depth' == depth && queue' == queue
       else depth' == depth[next := depth[cur] + 1] && queue' == queue + [next]
  }

  lemma MeetingKeeps<V>(arcs: set<(V, V)>, root: V, limit: int, depth0: map<V, nat>, queue0: seq<V>, cur: V,
                        depth: map<V, nat>, queue: seq<V>, next: V, depth': map<V, nat>, queue': seq<V>)
    requires Expanding(arcs, root, limit, depth0, queue0, cur, depth, queue)
    requires (cur, next) in arcs && Meets(depth, queue, cur, next, depth', queue')
    ensures Expanding(arcs, root, limit, depth0, queue0, cur, depth', queue')
  {
    if next in depth {
      assert depth' == depth && queue' == queue;
    } else {
      ExpandFinds(arcs, root, limit, depth0, queue0, cur, depth, queue, next);
    }
  }

  lemma ExpandingMet<V>(arcs: set<(V, V)>, root: V, limit: int, depth0: map<V, nat>, queue0: seq<V>, cur: V,
                        depth: map<V, nat>, queue: seq<V>)
    requires Expanding(arcs, root, limit, depth0, queue0, cur, depth, queue)
    ensures cur in depth0 && cur in depth && depth[cur] == depth0[cur]
  {
  }

  lemma StaysReady<V>(arcs: set<(V, V)>, root: V, limit: int, depth: map<V, nat>, queue: seq<V>, cur: V, next: V)
    requires ReadyToExpand(arcs, root, limit, depth, queue, cur)
    requires (cur, next) in arcs && next !in depth
    ensures ReadyToExpand(arcs, root, limit, depth[next := depth[cur] + 1], queue + [next], cur)
  {
    SearchFinds(arcs, root, limit, depth, queue, ArcsFrom(arcs, cur), cur, next);
  }

  /** The measure that makes the search end: fewer vertices left to meet, or a shorter queue. */
  lemma SearchShrinks<V>(arcs: set<(V, V)>, root: V, limit: int, depth: map<V, nat>, queue: seq<V>,
                         cur: V, depth': map<V, nat>, queue': seq<V>)
    requires Expanding(arcs, root, limit, depth, queue, cur, depth', queue')
    ensures Universe(arcs, root) - depth'.Keys < Universe(arcs, root) - depth.Keys
            || (depth'.Keys == depth.Keys && queue' == queue)
  {
    MetInUniverse(arcs, root, depth');
    if queue' != queue {
      assert queue'[|queue|] in depth' && queue'[|queue|] !in queue;
    }
    if v :| v in depth' && v !in depth {
      assert v in Universe(arcs, root) - depth.Keys;
    }
  }

  /** All vertices a search can ever meet: the measure of its termination. */
  function Universe<V>(arcs: set<(V, V)>, root: V): set<V> {
    {root} + set a | a in arcs :: a.1
  }

  lemma {:induction false} BallInUniverse<V>(arcs: set<(V, V)>, root: V, n: nat)
    ensures Ball(arcs, root, n) <= Universe(arcs, root)
  {
    if n > 0 {
      BallInUniverse(arcs, root, n - 1);
    }
  }

  lemma MetInUniverse<V>(arcs: set<(V, V)>, root: V, depth: map<V, nat>)
    requires forall v :: v in depth ==> AtDist(arcs, root, v, depth[v])
    ensures depth.Keys <= Universe(arcs, root)
  {
    forall v | v in depth ensures v in Universe(arcs, root) {
      BallInUniverse(arcs, root, depth[v]);
    }
  }
}
