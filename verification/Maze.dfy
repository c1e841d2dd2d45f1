/** The maze of the loader in app/admin/page.tsx: its cells, its walks, and what a table of
    distances from a target has to satisfy to be the breadth-first one. */
module Maze {
  datatype Cell = Cell(c: int, r: int)

  /** A rectangular maze. Everything outside it counts as wall, so any grid will do. */
  datatype Grid = Grid(rows: nat, cols: nat, walls: set<Cell>) {
    predicate IsWall(p: Cell) { p.r < 0 || p.r >= rows || p.c < 0 || p.c >= cols || p in walls }
    ghost predicate Inside(p: Cell) { 0 <= p.r < rows && 0 <= p.c < cols }
    ghost predicate Open(p: Cell) { Inside(p) && p !in walls }
  }

  datatype Dir = Dir(dc: int, dr: int)

  // Right, left, down, up: the order every scan of the neighbours follows.
  const DIRS: seq<Dir> := [Dir(1, 0), Dir(-1, 0), Dir(0, 1), Dir(0, -1)]

  function Move(p: Cell, d: Dir): Cell { Cell(p.c + d.dc, p.r + d.dr) }

  function Abs(n: int): nat { if n < 0 then -n else n }

  /** One column or one row apart, and not both. */
  predicate Adjacent(p: Cell, q: Cell) {
    Abs(p.c - q.c) + Abs(p.r - q.r) == 1
  }

  /** The four steps of the scan lead to the adjacent cells, all of them and no others. */
  lemma DirsAreNeighbours(p: Cell, q: Cell)
    ensures Adjacent(p, q) <==> exists i :: 0 <= i < |DIRS| && Move(p, DIRS[i]) == q
  {
    if Adjacent(p, q) {
      var d := Dir(q.c - p.c, q.r - p.r);
      assert d == DIRS[0] || d == DIRS[1] || d == DIRS[2] || d == DIRS[3];
      assert Move(p, d) == q;
    }
  }

  /** A walk inside the grid and off its walls; its length is the number of hops. */
  ghost predicate Walk(g: Grid, path: seq<Cell>) {
    && path != []
    && (forall i :: 0 <= i < |path| ==> 0 <= path[i].c < g.cols && 0 <= path[i].r < g.rows && path[i] !in g.walls)
    && (forall i :: 0 <= i < |path| - 1 ==> Adjacent(path[i], path[i + 1]))
  }

  ghost predicate WalkBetween(g: Grid, a: Cell, b: Cell, path: seq<Cell>) {
    Walk(g, path) && path[0] == a && path[|path| - 1] == b
  }

  ghost predicate Reachable(g: Grid, a: Cell, b: Cell) {
    exists path :: WalkBetween(g, a, b, path)
  }

  /** `n` is the length of a shortest walk from `a` to `b`. */
  ghost predicate IsDistance(g: Grid, a: Cell, b: Cell, n: int) {
    && (exists path :: WalkBetween(g, a, b, path) && |path| - 1 == n)
    && (forall path :: WalkBetween(g, a, b, path) ==> n <= |path| - 1)
  }

  // ---- certificates ----

  /** The distances found so far: the target at 0, every other entry one more than some entry
      beside it, and every entry open. */
  ghost predicate Grounded(g: Grid, target: Cell, dist: map<Cell, nat>) {
    && target in dist && dist[target] == 0
    && (forall p :: p in dist ==> g.Open(p))
    && (forall p {:trigger HasParent(dist, p)} :: p in dist && p != target ==> HasParent(dist, p))
  }

  ghost predicate HasParent(dist: map<Cell, nat>, p: Cell)
    requires p in dist
  {
    exists q :: q in dist && Adjacent(q, p) && dist[p] == dist[q] + 1
  }

  /** Every open neighbour of `p` is in the table, at most one further than `p`. */
  ghost predicate Relaxed(g: Grid, dist: map<Cell, nat>, p: Cell)
    requires p in dist
  {
    forall q :: Adjacent(p, q) && g.Open(q) ==> q in dist && dist[q] <= dist[p] + 1
  }

  lemma {:induction false} GroundedWalk(g: Grid, target: Cell, dist: map<Cell, nat>, p: Cell) returns (path: seq<Cell>)
    requires Grounded(g, target, dist) && p in dist
    ensures WalkBetween(g, target, p, path) && |path| - 1 == dist[p]
    decreases dist[p]
  {
    if p == target {
      path := [p];
    } else {
      assert HasParent(dist, p);
      var q :| q in dist && Adjacent(q, p) && dist[p] == dist[q] + 1;
      var before := GroundedWalk(g, target, dist, q);
      path := before + [p];
    }
  }

  lemma {:induction false} RelaxedBound(g: Grid, target: Cell, dist: map<Cell, nat>, path: seq<Cell>)
    requires target in dist && dist[target] == 0
    requires forall p :: p in dist ==> Relaxed(g, dist, p)
    requires Walk(g, path) && path[0] == target
    ensures path[|path| - 1] in dist && dist[path[|path| - 1]] <= |path| - 1
    decreases |path|
  {
    if |path| > 1 {
      var before := path[..|path| - 1];
      RelaxedBound(g, target, dist, before);
      assert Adjacent(before[|before| - 1], path[|path| - 1]);
      assert Relaxed(g, dist, before[|before| - 1]);
    }
  }

  /** A grounded table in which every entry is relaxed is exactly the table of distances. */
  lemma TableIsDistance(g: Grid, target: Cell, dist: map<Cell, nat>, p: Cell)
    requires Grounded(g, target, dist) && forall q :: q in dist ==> Relaxed(g, dist, q)
    ensures p in dist ==> IsDistance(g, target, p, dist[p])
    ensures p in dist <==> Reachable(g, target, p)
  {
    if p in dist {
      var path := GroundedWalk(g, target, dist, p);
    }
    forall path | WalkBetween(g, target, p, path) ensures p in dist && dist[p] <= |path| - 1 {
      RelaxedBound(g, target, dist, path);
    }
  }

  lemma DistanceUnique(g: Grid, a: Cell, b: Cell, m: int, n: int)
    requires IsDistance(g, a, b, m) && IsDistance(g, a, b, n)
    ensures m == n
  {
  }

  /** What `bfs` returns: the distance of every reachable cell and -1 everywhere else. */
  ghost predicate IsDistanceTable(g: Grid, target: Cell, d: array2<int>)
    reads d
  {
    && d.Length0 == g.rows && d.Length1 == g.cols
    && forall p: Cell :: 0 <= p.r < g.rows && 0 <= p.c < g.cols ==>
         if Reachable(g, target, p) then IsDistance(g, target, p, d[p.r, p.c]) else d[p.r, p.c] == -1
  }
}
