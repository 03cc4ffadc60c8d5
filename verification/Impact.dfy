/** `cgatc/containment/impact_radius.py`: who can be reached within r signed message hops. */
module Impact {
  import opened Primitives
  import opened ScopeReduction

  const DEFAULT_MAX_RADIUS := 3
  const SUSPICIOUS_MAX_RADIUS := 1
  const ISOLATED_MAX_RADIUS := 0

  type Adjacency = map<Bytes, set<Bytes>>

  function Succ(adj: Adjacency, x: Bytes): set<Bytes> {
    if x in adj then adj[x] else {}
  }

  function Sent(adj: Adjacency, src: Bytes, dst: Bytes): Adjacency {
    adj[src := Succ(adj, src) + {dst}]
  }

  /** A walk follows edges; it has one edge fewer than nodes. */
  ghost predicate IsWalk(adj: Adjacency, walk: seq<Bytes>) {
    walk != [] && forall i {:trigger walk[i]} :: 0 < i < |walk| ==> walk[i] in Succ(adj, walk[i - 1])
  }

  ghost predicate WalkWithin(adj: Adjacency, a: Bytes, x: Bytes, k: nat, walk: seq<Bytes>) {
    IsWalk(adj, walk) && walk[0] == a && walk[|walk| - 1] == x && |walk| - 1 <= k
  }

  /** The nodes at the end of a walk of at most `k` edges from `a`, layer by layer. */
  ghost function Ball(adj: Adjacency, a: Bytes, k: nat): set<Bytes> {
    if k == 0 then {a}
    else Ball(adj, a, k - 1) + set x, y | x in Ball(adj, a, k - 1) && y in Succ(adj, x) :: y
  }

  /** What `impact_set` returns. */
  ghost function ImpactOf(adj: Adjacency, a: Bytes, maxRadius: int): set<Bytes> {
    if maxRadius <= 0 then {} else Ball(adj, a, maxRadius) - {a}
  }

  // ---------------------------------------------------------------------
  // Balls and walks
  // ---------------------------------------------------------------------

  lemma {:induction false} WalkAppend(adj: Adjacency, a: Bytes, x: Bytes, y: Bytes, k: nat, walk: seq<Bytes>)
    requires WalkWithin(adj, a, x, k, walk) && y in Succ(adj, x)
    ensures WalkWithin(adj, a, y, k + 1, walk + [y])
  {
    var longer := walk + [y];
    forall i | 0 < i < |longer| ensures longer[i] in Succ(adj, longer[i - 1]) {
      if i < |walk| {
        assert longer[i] == walk[i];
      }
    }
  }

  lemma {:induction false} BallHasWalk(adj: Adjacency, a: Bytes, x: Bytes, k: nat) returns (walk: seq<Bytes>)
    requires x in Ball(adj, a, k)
    ensures WalkWithin(adj, a, x, k, walk)
    decreases k
  {
    if k == 0 {
      walk := [a];
    } else if x in Ball(adj, a, k - 1) {
      walk := BallHasWalk(adj, a, x, k - 1);
    } else {
      var w :| w in Ball(adj, a, k - 1) && x in Succ(adj, w);
      walk := BallHasWalk(adj, a, w, k - 1);
      WalkAppend(adj, a, w, x, k - 1, walk);
      walk := walk + [x];
    }
  }

  lemma {:induction false} BallMonotone(adj: Adjacency, a: Bytes, j: nat, k: nat)
    requires j <= k
    ensures Ball(adj, a, j) <= Ball(adj, a, k)
    decreases k
  {
    if j < k {
      BallMonotone(adj, a, j, k - 1);
    }
  }

  lemma {:induction false} WalkInBall(adj: Adjacency, a: Bytes, x: Bytes, k: nat, walk: seq<Bytes>)
    requires WalkWithin(adj, a, x, k, walk)
    ensures x in Ball(adj, a, k)
    decreases |walk|
  {
    var t := |walk| - 1;
    if t == 0 {
      BallMonotone(adj, a, 0, k);
    } else {
      var shorter := walk[..t];
      assert walk[t] in Succ(adj, walk[t - 1]);
      forall i | 0 < i < |shorter| ensures shorter[i] in Succ(adj, shorter[i - 1]) {
        assert walk[i] in Succ(adj, walk[i - 1]);
      }
      WalkInBall(adj, a, walk[t - 1], k - 1, shorter);
    }
  }

  /** Another agent at the end of a walk of at most `r` recorded messages from `a`. */
  ghost predicate Reachable(adj: Adjacency, a: Bytes, r: int, x: Bytes) {
    x != a && exists walk :: |walk| >= 2 && r >= 0 && WalkWithin(adj, a, x, r, walk)
  }

  /** The impact set is exactly the set of other agents at the end of a walk of 1 to r edges. */
  lemma {:induction false} ImpactIsReachability(adj: Adjacency, a: Bytes, maxRadius: int, x: Bytes)
    ensures x in ImpactOf(adj, a, maxRadius) <==> Reachable(adj, a, maxRadius, x)
  {
    if maxRadius > 0 {
      if x in ImpactOf(adj, a, maxRadius) {
        var walk := BallHasWalk(adj, a, x, maxRadius);
        assert |walk| >= 2;
      }
      if walk :| |walk| >= 2 && WalkWithin(adj, a, x, maxRadius, walk) {
        WalkInBall(adj, a, x, maxRadius, walk);
      }
    }
  }

  /** A larger radius and more recorded messages never shrink an impact set. */
  lemma {:induction false} ImpactMonotone(adj: Adjacency, a: Bytes, r: int, s: int, src: Bytes, dst: Bytes)
    requires r <= s
    ensures ImpactOf(adj, a, r) <= ImpactOf(adj, a, s)
    ensures ImpactOf(adj, a, r) <= ImpactOf(Sent(adj, src, dst), a, r)
  {
    if r > 0 {
      BallMonotone(adj, a, r, s);
      BallGrows(adj, Sent(adj, src, dst), a, r);
    }
  }

  lemma {:induction false} BallGrows(adj: Adjacency, adj': Adjacency, a: Bytes, k: nat)
    requires forall x :: Succ(adj, x) <= Succ(adj', x)
    ensures Ball(adj, a, k) <= Ball(adj', a, k)
    decreases k
  {
    if k > 0 {
      BallGrows(adj, adj', a, k - 1);
    }
  }

  // ---------------------------------------------------------------------
  // Breadth-first search
  // ---------------------------------------------------------------------

  /** Every node that can be pushed. */
  ghost function Universe(adj: Adjacency, a: Bytes): set<Bytes> {
    {a} + set x, y | x in adj && y in adj[x] :: y
  }

  /** All successors of `x` are found, at most one step further out. */
  ghost predicate Expanded(adj: Adjacency, dist: map<Bytes, nat>, x: Bytes) {
    x in dist && forall y :: y in Succ(adj, x) ==> y in dist && dist[y] <= dist[x] + 1
  }

  /** Every found node is known to lie within its distance. */
  ghost predicate Sound(adj: Adjacency, a: Bytes, r: nat, dist: map<Bytes, nat>) {
    a in dist && dist[a] == 0 && forall x :: x in dist ==> dist[x] <= r && x in Ball(adj, a, dist[x])
  }

  /** A search that has expanded every node closer than r has found the whole ball. */
  lemma {:induction false} BallFound(adj: Adjacency, a: Bytes, r: nat, dist: map<Bytes, nat>, k: nat, x: Bytes)
    requires Sound(adj, a, r, dist)
    requires forall y :: y in dist && dist[y] < r ==> Expanded(adj, dist, y)
    requires k <= r && x in Ball(adj, a, k)
    ensures x in dist && dist[x] <= k
    decreases k
  {
    if k > 0 {
      if x in Ball(adj, a, k - 1) {
        BallFound(adj, a, r, dist, k - 1, x);
      } else {
        var w :| w in Ball(adj, a, k - 1) && x in Succ(adj, w);
        BallFound(adj, a, r, dist, k - 1, w);
        assert Expanded(adj, dist, w);
      }
    }
  }

  lemma {:induction false} SearchComplete(adj: Adjacency, a: Bytes, r: nat, dist: map<Bytes, nat>)
    requires Sound(adj, a, r, dist)
    requires forall y :: y in dist && dist[y] < r ==> Expanded(adj, dist, y)
    ensures dist.Keys == Ball(adj, a, r)
  {
    forall x | x in Ball(adj, a, r) ensures x in dist {
      BallFound(adj, a, r, dist, r, x);
    }
    forall x | x in dist ensures x in Ball(adj, a, r) {
      BallMonotone(adj, a, dist[x], r);
    }
  }

  /** The queue holds found nodes with their distances, nearest first, all within one step of
      `depth`; no found node lies further out. */
  ghost predicate Queued(frontier: seq<(Bytes, nat)>, dist: map<Bytes, nat>, depth: nat) {
    && (forall i :: 0 <= i < |frontier| ==>
          frontier[i].0 in dist && dist[frontier[i].0] == frontier[i].1 && depth <= frontier[i].1 <= depth + 1)
    && (forall i, j :: 0 <= i < j < |frontier| ==> frontier[i].1 <= frontier[j].1)
    && (forall x :: x in dist ==> dist[x] <= depth + 1)
  }

  ghost predicate Waiting(frontier: seq<(Bytes, nat)>, dist: map<Bytes, nat>, x: Bytes) {
    x in dist && (x, dist[x]) in frontier
  }

  /** Between two rounds: all found nodes closer than r are expanded or still waiting. */
  ghost predicate Searching(
    adj: Adjacency, a: Bytes, r: nat, frontier: seq<(Bytes, nat)>, dist: map<Bytes, nat>, depth: nat) {
    && Sound(adj, a, r, dist) && Queued(frontier, dist, depth) && dist.Keys <= Universe(adj, a)
    && forall x :: x in dist && dist[x] < r && !Waiting(frontier, dist, x) ==> Expanded(adj, dist, x)
  }

  /** Inside a round: `node` is being expanded and its neighbours in `todo` are still to be looked at. */
  ghost predicate Expanding(adj: Adjacency, a: Bytes, r: nat, node: Bytes, todo: set<Bytes>,
                            frontier: seq<(Bytes, nat)>, dist: map<Bytes, nat>, depth: nat) {
    && Sound(adj, a, r, dist) && Queued(frontier, dist, depth) && dist.Keys <= Universe(adj, a)
    && (forall x :: x in dist && dist[x] < r && x != node && !Waiting(frontier, dist, x) ==> Expanded(adj, dist, x))
    && node in dist && dist[node] == depth < r
    && todo <= Succ(adj, node)
    && forall y :: y in Succ(adj, node) && y !in todo ==> y in dist && dist[y] <= depth + 1
  }

  lemma {:induction false} PopStep(
    adj: Adjacency, a: Bytes, r: nat, frontier: seq<(Bytes, nat)>, dist: map<Bytes, nat>, depth: nat)
    requires frontier != [] && Searching(adj, a, r, frontier, dist, depth)
    ensures var (node, d) := frontier[0];
            if d < r then Expanding(adj, a, r, node, Succ(adj, node), frontier[1..], dist, d)
            else Searching(adj, a, r, frontier[1..], dist, d)
  {
    var (node, d) := frontier[0];
    forall x | x in dist && dist[x] < r && x != node && !Waiting(frontier[1..], dist, x)
      ensures Expanded(adj, dist, x)
    {
      assert frontier == [frontier[0]] + frontier[1..];
      assert !Waiting(frontier, dist, x);
    }
  }

  lemma {:induction false} PushStep(adj: Adjacency, a: Bytes, r: nat, node: Bytes, todo: set<Bytes>,
                                    frontier: seq<(Bytes, nat)>, dist: map<Bytes, nat>, depth: nat, nxt: Bytes)
    requires Expanding(adj, a, r, node, todo, frontier, dist, depth) && nxt in todo && nxt !in dist
    ensures Expanding(adj, a, r, node, todo - {nxt}, frontier + [(nxt, depth + 1)], dist[nxt := depth + 1], depth)
  {
    PushKeepsExpanded(adj, r, node, frontier, dist, depth, nxt);
    PushKeepsSound(adj, a, r, node, dist, depth, nxt);
    PushKeepsQueue(frontier, dist, depth, nxt);
  }

  lemma {:induction false} PushKeepsSound(
    adj: Adjacency, a: Bytes, r: nat, node: Bytes, dist: map<Bytes, nat>, depth: nat, nxt: Bytes)
    requires Sound(adj, a, r, dist) && node in dist && dist[node] == depth < r && nxt in Succ(adj, node) && nxt !in dist
    ensures Sound(adj, a, r, dist[nxt := depth + 1])
  {
    assert nxt in Ball(adj, a, depth + 1);
  }

  lemma {:induction false} PushKeepsQueue(
    frontier: seq<(Bytes, nat)>, dist: map<Bytes, nat>, depth: nat, nxt: Bytes)
    requires Queued(frontier, dist, depth) && nxt !in dist
    ensures Queued(frontier + [(nxt, depth + 1)], dist[nxt := depth + 1], depth)
  {
  }

  lemma {:induction false} SkipStep(adj: Adjacency, a: Bytes, r: nat, node: Bytes, todo: set<Bytes>,
                                    frontier: seq<(Bytes, nat)>, dist: map<Bytes, nat>, depth: nat, nxt: Bytes)
    requires Expanding(adj, a, r, node, todo, frontier, dist, depth) && nxt in todo && nxt in dist
    ensures Expanding(adj, a, r, node, todo - {nxt}, frontier, dist, depth)
  {
  }

  lemma {:induction false} RoundEnd(adj: Adjacency, a: Bytes, r: nat, node: Bytes,
                                    frontier: seq<(Bytes, nat)>, dist: map<Bytes, nat>, depth: nat)
    requires Expanding(adj, a, r, node, {}, frontier, dist, depth)
    ensures Searching(adj, a, r, frontier, dist, depth)
  {
    assert Expanded(adj, dist, node);
  }

  class ImpactGraph {
    var adj: Adjacency

    constructor ()
      ensures adj == map[]
    {
      adj := map[];
    }

    method RecordSend(src: Bytes, dst: Bytes)
      modifies this
      ensures adj == Sent(old(adj), src, dst)
      ensures forall x, y :: y in Succ(adj, x) <==> y in Succ(old(adj), x) || (x == src && y == dst)
    {
      if src !in adj {
        adj := adj[src := {}];
      }
      adj := adj[src := adj[src] + {dst}];
    }

    /** `impact_set`: breadth-first search from `agent`. */
    method ImpactSet(agent: Bytes, maxRadius: int) returns (seen: set<Bytes>)
      ensures seen == ImpactOf(adj, agent, maxRadius)
    {
      if maxRadius <= 0 {
        return {};
      }
      seen := {};
      var frontier: seq<(Bytes, nat)> := [(agent, 0)];
      ghost var dist: map<Bytes, nat>, depth: nat := map[agent := 0], 0;
      var g := adj;
      while frontier != []
        invariant agent !in seen && dist.Keys == seen + {agent}
        invariant Searching(g, agent, maxRadius, frontier, dist, depth)
        decreases Universe(g, agent) - dist.Keys, |frontier|
      {
        var (node, d) := frontier[0];
        PopStep(g, agent, maxRadius, frontier, dist, depth);
        frontier := frontier[1..];
        depth := d;
        if d < maxRadius {
          seen, frontier, dist := Expand(g, agent, maxRadius, node, seen, frontier, dist, d);
        }
      }
      SearchComplete(g, agent, maxRadius, dist);
    }
  }

  /** The inner loop of the search: push every neighbour of `node` not found before, whatever the
      order in which they come. */
  method Expand(g: Adjacency, agent: Bytes, maxRadius: nat, node: Bytes, found: set<Bytes>, waiting: seq<(Bytes, nat)>,
                ghost dist0: map<Bytes, nat>, d: nat)
    returns (seen: set<Bytes>, frontier: seq<(Bytes, nat)>, ghost dist: map<Bytes, nat>)
    requires agent !in found && dist0.Keys == found + {agent}
    requires Expanding(g, agent, maxRadius, node, Succ(g, node), waiting, dist0, d)
    ensures agent !in seen && dist.Keys == seen + {agent}
    ensures Searching(g, agent, maxRadius, frontier, dist, d)
    ensures Universe(g, agent) - dist.Keys < Universe(g, agent) - dist0.Keys
            || (dist.Keys == dist0.Keys && frontier == waiting)
  {
    seen, frontier, dist := found, waiting, dist0;
    var todo := Succ(g, node);
    while todo != {}
      invariant agent !in seen && dist.Keys == seen + {agent}
      invariant Expanding(g, agent, maxRadius, node, todo, frontier, dist, d)
      invariant dist0.Keys <= dist.Keys && (dist.Keys == dist0.Keys ==> frontier == waiting)
      decreases todo
    {
      var nxt :| nxt in todo;
      if nxt !in seen && nxt != agent {
        PushStep(g, agent, maxRadius, node, todo, frontier, dist, d, nxt);
        seen := seen + {nxt};
        frontier := frontier + [(nxt, d + 1)];
        dist := dist[nxt := d + 1];
      } else {
        SkipStep(g, agent, maxRadius, node, todo, frontier, dist, d, nxt);
      }
      todo := todo - {nxt};
    }
    RoundEnd(g, agent, maxRadius, node, frontier, dist, d);
  }

  lemma {:induction false} PushKeepsExpanded(adj: Adjacency, maxRadius: nat, node: Bytes, frontier: seq<(Bytes, nat)>,
                                             dist: map<Bytes, nat>, d: nat, nxt: Bytes)
    requires nxt !in dist
    requires forall x :: x in dist && dist[x] < maxRadius && x != node && !Waiting(frontier, dist, x)
               ==> Expanded(adj, dist, x)
    ensures var frontier', dist' := frontier + [(nxt, d + 1)], dist[nxt := d + 1];
            forall x :: x in dist' && dist'[x] < maxRadius && x != node && !Waiting(frontier', dist', x)
              ==> Expanded(adj, dist', x)
  {
    var frontier', dist' := frontier + [(nxt, d + 1)], dist[nxt := d + 1];
    forall x | x in dist' && dist'[x] < maxRadius && x != node && !Waiting(frontier', dist', x)
      ensures Expanded(adj, dist', x)
    {
      assert frontier'[|frontier|] == (nxt, d + 1);
      assert x != nxt;
      assert !Waiting(frontier, dist, x);
      assert Expanded(adj, dist, x);
    }
  }

  // ---------------------------------------------------------------------
  // Radius per containment level
  // ---------------------------------------------------------------------

  function RadiusForLevel(level: Level): nat {
    if level >= NETWORK_ISOLATED then ISOLATED_MAX_RADIUS
    else if level >= DELEGATION_PROHIBITED then SUSPICIOUS_MAX_RADIUS
    else DEFAULT_MAX_RADIUS
  }

  /** Three hops in general, one from the prohibition of delegation on, and none in isolation. */
  lemma {:induction false} RadiusExactly(level: Level)
    ensures RadiusForLevel(level) == 3 <==> level <= HIGH_RISK_TOOLS_DISABLED
    ensures RadiusForLevel(level) == 1 <==> DELEGATION_PROHIBITED <= level <= READ_ONLY
    ensures RadiusForLevel(level) == 0 <==> NETWORK_ISOLATED <= level
  {
  }

  /** Raising an agent's level never widens its impact set; isolation empties it. */
  lemma {:induction false} ContainmentShrinksImpact(adj: Adjacency, a: Bytes, l: Level, m: Level)
    requires l <= m
    ensures ImpactOf(adj, a, RadiusForLevel(m)) <= ImpactOf(adj, a, RadiusForLevel(l))
    ensures m >= NETWORK_ISOLATED ==> ImpactOf(adj, a, RadiusForLevel(m)) == {}
  {
    ImpactMonotone(adj, a, RadiusForLevel(m), RadiusForLevel(l), a, a);
  }
}
