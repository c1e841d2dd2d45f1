/** The breadth-first search of app/admin/page.tsx, over an array and a queue: its table holds exact
    shortest distances. */
module BreadthFirst {
  import opened Maze

  // ---- the search ----

  /** Between two rounds: what has left the queue is relaxed, the queue is sorted by distance, and
      nothing found is more than one hop further than its head. */
  ghost predicate Frontier(g: Grid, target: Cell, dist: map<Cell, nat>, done: set<Cell>, q: seq<Cell>) {
    && Grounded(g, target, dist)
    && Partition(dist, done, q)
    && AllRelaxed(g, dist, done)
    && Sorted(dist, q)
    && (q != [] ==> Within(dist, dist[q[0]] + 1))
  }

  ghost predicate Partition(dist: map<Cell, nat>, done: set<Cell>, q: seq<Cell>) {
    && (forall p :: p in dist <==> p in done || p in q)
    && (forall i :: 0 <= i < |q| ==> q[i] !in done)
    && (forall i, j :: 0 <= i < j < |q| ==> q[i] != q[j])
  }

  ghost predicate Sorted(dist: map<Cell, nat>, q: seq<Cell>) {
    && (forall i :: 0 <= i < |q| ==> q[i] in dist)
    && (forall i, j :: 0 <= i < j < |q| ==> dist[q[i]] <= dist[q[j]])
  }

  /** Within a round for `cur`, its first `n` neighbours handled. */
  ghost predicate Expanding(g: Grid, target: Cell, dist: map<Cell, nat>, done: set<Cell>, q: seq<Cell>, cur: Cell, n: nat) {
    && n <= |DIRS| && cur in dist && cur !in done
    && Grounded(g, target, dist)
    && Partition(dist, done, [cur] + q)
    && AllRelaxed(g, dist, done)
    && Sorted(dist, [cur] + q)
    && Within(dist, dist[cur] + 1)
    && NeighboursFound(g, dist, cur, n)
  }

  ghost predicate AllRelaxed(g: Grid, dist: map<Cell, nat>, done: set<Cell>) {
    forall p :: p in done ==> p in dist && Relaxed(g, dist, p)
  }

  ghost predicate Within(dist: map<Cell, nat>, n: nat) {
    forall p :: p in dist ==> dist[p] <= n
  }

  ghost predicate NeighboursFound(g: Grid, dist: map<Cell, nat>, cur: Cell, n: nat)
    requires n <= |DIRS|
  {
    forall i :: 0 <= i < n && g.Open(Move(cur, DIRS[i])) ==> Move(cur, DIRS[i]) in dist
  }

  lemma StartRound(g: Grid, target: Cell, dist: map<Cell, nat>, done: set<Cell>, q: seq<Cell>)
    requires Frontier(g, target, dist, done, q) && q != []
    ensures Expanding(g, target, dist, done, q[1..], q[0], 0)
  {
    assert [q[0]] + q[1..] == q;
  }

  lemma SkipNeighbour(g: Grid, target: Cell, dist: map<Cell, nat>, done: set<Cell>, q: seq<Cell>, cur: Cell, n: nat)
    requires Expanding(g, target, dist, done, q, cur, n) && n < |DIRS|
    requires g.Open(Move(cur, DIRS[n])) ==> Move(cur, DIRS[n]) in dist
    ensures Expanding(g, target, dist, done, q, cur, n + 1)
  {
  }

  lemma ExtendGrounded(g: Grid, target: Cell, dist: map<Cell, nat>, cur: Cell, found: Cell)
    requires Grounded(g, target, dist) && cur in dist && Adjacent(cur, found) && g.Open(found) && found !in dist
    ensures Grounded(g, target, dist[found := dist[cur] + 1])
  {
    var dist2 := dist[found := dist[cur] + 1];
    forall p | p in dist2 && p != target ensures HasParent(dist2, p) {
      if p == found {
        assert cur in dist2 && dist2[p] == dist2[cur] + 1;
      } else {
        assert HasParent(dist, p);
        var parent :| parent in dist && Adjacent(parent, p) && dist[p] == dist[parent] + 1;
        assert parent in dist2 && dist2[p] == dist2[parent] + 1;
      }
    }
  }

  lemma ExtendQueue(dist: map<Cell, nat>, done: set<Cell>, q: seq<Cell>, found: Cell, n: nat)
    requires Partition(dist, done, q) && Sorted(dist, q) && found !in dist
    requires forall i :: 0 <= i < |q| ==> dist[q[i]] <= n
    ensures Partition(dist[found := n], done, q + [found]) && Sorted(dist[found := n], q + [found])
  {
    var q2 := q + [found];
    assert forall p :: p in q2 <==> p in q || p == found;
    assert forall i :: 0 <= i < |q| ==> q2[i] == q[i] && q2[i] in dist;
  }

  lemma ExtendRest(g: Grid, dist: map<Cell, nat>, done: set<Cell>, cur: Cell, n: nat)
    requires cur in dist && n < |DIRS| && Move(cur, DIRS[n]) !in dist
    requires AllRelaxed(g, dist, done) && Within(dist, dist[cur] + 1) && NeighboursFound(g, dist, cur, n)
    ensures var dist2 := dist[Move(cur, DIRS[n]) := dist[cur] + 1];
            AllRelaxed(g, dist2, done) && Within(dist2, dist[cur] + 1) && NeighboursFound(g, dist2, cur, n + 1)
  {
  }

  lemma FindNeighbour(g: Grid, target: Cell, dist: map<Cell, nat>, done: set<Cell>, q: seq<Cell>, cur: Cell, n: nat)
    requires Expanding(g, target, dist, done, q, cur, n) && n < |DIRS|
    requires g.Open(Move(cur, DIRS[n])) && Move(cur, DIRS[n]) !in dist
    ensures Expanding(g, target, dist[Move(cur, DIRS[n]) := dist[cur] + 1], done, q + [Move(cur, DIRS[n])], cur, n + 1)
  {
    var found := Move(cur, DIRS[n]);
    assert Adjacent(cur, found);
    ExtendGrounded(g, target, dist, cur, found);
    assert forall i :: 0 <= i < |[cur] + q| ==> ([cur] + q)[i] in dist;
    ExtendQueue(dist, done, [cur] + q, found, dist[cur] + 1);
    assert ([cur] + q) + [found] == [cur] + (q + [found]);
    ExtendRest(g, dist, done, cur, n);
  }

  /** One neighbour, found or not: what the queue and the distances become keeps the round going. */
  lemma NextNeighbour(g: Grid, target: Cell, dist: map<Cell, nat>, done: set<Cell>, q: seq<Cell>, cur: Cell, n: nat)
    requires Expanding(g, target, dist, done, q, cur, n) && n < |DIRS|
    ensures cur in dist && g.Inside(cur)
    ensures var next := Move(cur, DIRS[n]);
            if g.Open(next) && next !in dist
            then Expanding(g, target, dist[next := dist[cur] + 1], done, q + [next], cur, n + 1)
            else Expanding(g, target, dist, done, q, cur, n + 1)
  {
    var next := Move(cur, DIRS[n]);
    if g.Open(next) && next !in dist {
      FindNeighbour(g, target, dist, done, q, cur, n);
    } else {
      SkipNeighbour(g, target, dist, done, q, cur, n);
    }
  }

  lemma PopPartition(dist: map<Cell, nat>, done: set<Cell>, q: seq<Cell>)
    requires q != [] && Partition(dist, done, q)
    ensures Partition(dist, done + {q[0]}, q[1..])
  {
    assert forall p :: p in q <==> p == q[0] || p in q[1..];
  }

  lemma PopSorted(dist: map<Cell, nat>, q: seq<Cell>)
    requires q != [] && Sorted(dist, q)
    ensures Sorted(dist, q[1..])
    ensures q[1..] != [] ==> dist[q[0]] <= dist[q[1..][0]]
  {
  }

  lemma PopQueue(dist: map<Cell, nat>, done: set<Cell>, q: seq<Cell>, cur: Cell)
    requires Partition(dist, done, [cur] + q) && Sorted(dist, [cur] + q)
    ensures Partition(dist, done + {cur}, q) && Sorted(dist, q)
    ensures q != [] ==> cur in dist && q[0] in dist && dist[cur] <= dist[q[0]]
  {
    var q2 := [cur] + q;
    assert q2[0] == cur && q2[1..] == q;
    PopPartition(dist, done, q2);
    PopSorted(dist, q2);
  }

  lemma AllFound(g: Grid, dist: map<Cell, nat>, cur: Cell)
    requires cur in dist && Within(dist, dist[cur] + 1) && NeighboursFound(g, dist, cur, |DIRS|)
    ensures Relaxed(g, dist, cur)
  {
    forall next | Adjacent(cur, next) && g.Open(next) ensures next in dist && dist[next] <= dist[cur] + 1 {
      DirsAreNeighbours(cur, next);
      var i :| 0 <= i < |DIRS| && Move(cur, DIRS[i]) == next;
    }
  }

  lemma EndRound(g: Grid, target: Cell, dist: map<Cell, nat>, done: set<Cell>, q: seq<Cell>, cur: Cell)
    requires Expanding(g, target, dist, done, q, cur, |DIRS|)
    ensures Frontier(g, target, dist, done + {cur}, q)
  {
    PopQueue(dist, done, q, cur);
    AllFound(g, dist, cur);
  }

  ghost predicate Mirrors(g: Grid, d: array2<int>, dist: map<Cell, nat>)
    reads d
  {
    && d.Length0 == g.rows && d.Length1 == g.cols
    && (forall p :: p in dist ==> g.Inside(p))
    && (forall p :: g.Inside(p) ==> d[p.r, p.c] == if p in dist then dist[p] else -1)
  }

  /** Entering one cell's distance in the table. */
  method Mark(g: Grid, d: array2<int>, p: Cell, v: nat, ghost dist: map<Cell, nat>)
    requires Mirrors(g, d, dist) && g.Inside(p)
    modifies d
    ensures Mirrors(g, d, dist[p := v])
  {
    d[p.r, p.c] := v;
  }

  /** One round: the four neighbours of `cur`, in order. */
  method Expand(g: Grid, target: Cell, d: array2<int>, queue: seq<Cell>, cur: Cell, ghost found: map<Cell, nat>, ghost done: set<Cell>)
    returns (q: seq<Cell>, ghost dist: map<Cell, nat>)
    requires Mirrors(g, d, found) && Expanding(g, target, found, done, queue, cur, 0)
    modifies d
    ensures Mirrors(g, d, dist) && Expanding(g, target, dist, done, q, cur, |DIRS|)
  {
    q, dist := queue, found;
    for n := 0 to |DIRS|
      invariant Mirrors(g, d, dist) && Expanding(g, target, dist, done, q, cur, n)
    {
      var next := Move(cur, DIRS[n]);
      NextNeighbour(g, target, dist, done, q, cur, n);
      if !g.IsWall(next) && d[next.r, next.c] < 0 {
        Mark(g, d, next, d[cur.r, cur.c] + 1, dist);
        q := q + [next];
        dist := dist[next := dist[cur] + 1];
      }
    }
  }

  method Bfs(g: Grid, target: Cell) returns (d: array2<int>)
    ensures fresh(d) && IsDistanceTable(g, target, d)
  {
    d := new int[g.rows, g.cols]((r, c) => -1);
    if g.IsWall(target) {
      return;
    }
    d[target.r, target.c] := 0;
    var q: seq<Cell> := [target];
    ghost var dist: map<Cell, nat>, done: set<Cell> := map[target := 0], {};
    ghost var all := set r, c | 0 <= r < g.rows && 0 <= c < g.cols :: Cell(c, r);
    while q != []
      invariant fresh(d) && Mirrors(g, d, dist) && Frontier(g, target, dist, done, q)
      decreases all - done
    {
      var cur := q[0];
      assert cur in all - done;
      StartRound(g, target, dist, done, q);
      q, dist := Expand(g, target, d, q[1..], cur, dist, done);
      EndRound(g, target, dist, done, q, cur);
      done := done + {cur};
    }
    TableFromFrontier(g, target, dist, done, d);
  }

  lemma TableFromFrontier(g: Grid, target: Cell, dist: map<Cell, nat>, done: set<Cell>, d: array2<int>)
    requires g.Open(target) && Frontier(g, target, dist, done, []) && Mirrors(g, d, dist)
    ensures IsDistanceTable(g, target, d)
  {
    forall p ensures p in dist ==> IsDistance(g, target, p, dist[p]) {
      TableIsDistance(g, target, dist, p);
    }
    forall p ensures p in dist <==> Reachable(g, target, p) {
      TableIsDistance(g, target, dist, p);
    }
  }
}
