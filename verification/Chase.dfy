/** The rescue run of app/admin/page.tsx: every time the mover reaches a cell it searches the maze
    from the target and heads for the neighbour with the smallest distance. */
module Chase {
  import opened Maze
  import opened BreadthFirst

  // ---- walks towards the target ----

  lemma ExtendWalk(g: Grid, a: Cell, p: Cell, q: Cell, path: seq<Cell>)
    requires WalkBetween(g, a, p, path) && Adjacent(p, q) && g.Open(q)
    ensures WalkBetween(g, a, q, path + [q])
  {
  }

  /** A cell beside one at distance `n` is itself at distance at least `n - 1`. */
  lemma NeighbourBound(g: Grid, target: Cell, p: Cell, q: Cell, n: int, v: int)
    requires IsDistance(g, target, p, n) && IsDistance(g, target, q, v) && Adjacent(q, p)
    ensures n - 1 <= v
  {
    var path :| WalkBetween(g, target, q, path) && |path| - 1 == v;
    var toP :| WalkBetween(g, target, p, toP);
    assert g.Open(toP[|toP| - 1]);
    ExtendWalk(g, target, q, p, path);
  }

  /** Away from the target, some neighbour is exactly one hop closer. */
  lemma CloserNeighbour(g: Grid, target: Cell, p: Cell, n: int) returns (i: nat)
    requires IsDistance(g, target, p, n) && n > 0
    ensures i < |DIRS| && g.Open(Move(p, DIRS[i])) && IsDistance(g, target, Move(p, DIRS[i]), n - 1)
  {
    var path :| WalkBetween(g, target, p, path) && |path| - 1 == n;
    var before := path[..n];
    var q := before[n - 1];
    assert Adjacent(path[n - 1], path[n]);
    DirsAreNeighbours(p, q);
    i :| 0 <= i < |DIRS| && Move(p, DIRS[i]) == q;
    assert WalkBetween(g, target, q, before) && |before| - 1 == n - 1;
    forall other | WalkBetween(g, target, q, other) ensures n - 1 <= |other| - 1 {
      ExtendWalk(g, target, q, p, other);
    }
  }

  // ---- the choice of direction ----

  function OpensFrom(g: Grid, p: Cell, dirs: seq<Dir>): seq<Dir> {
    if dirs == [] then []
    else (if g.IsWall(Move(p, dirs[0])) then [] else [dirs[0]]) + OpensFrom(g, p, dirs[1..])
  }

  function OpensAt(g: Grid, p: Cell): seq<Dir> { OpensFrom(g, p, DIRS) }

  lemma {:induction false} OpensMembers(g: Grid, p: Cell, dirs: seq<Dir>, d: Dir)
    ensures d in OpensFrom(g, p, dirs) <==> d in dirs && g.Open(Move(p, d))
    decreases |dirs|
  {
    if dirs != [] { OpensMembers(g, p, dirs[1..], d); }
  }

  ghost predicate Found(d: array2<int>, p: Cell, o: Dir)
    reads d
  {
    0 <= Move(p, o).r < d.Length0 && 0 <= Move(p, o).c < d.Length1 && d[Move(p, o).r, Move(p, o).c] >= 0
  }

  /** `q` is a step downhill: from any `p` at a positive distance it is open, beside `p` and exactly
      one hop closer. */
  ghost predicate Downhill(g: Grid, target: Cell, p: Cell, q: Cell) {
    forall n :: IsDistance(g, target, p, n) && n > 0 ==> g.Open(q) && Adjacent(p, q) && IsDistance(g, target, q, n - 1)
  }

  /** `best` is among the first `k` options, with no entry as low before it. */
  ghost predicate FirstLeast(d: array2<int>, p: Cell, opts: seq<Dir>, best: Dir, k: nat)
    requires k <= |opts| && best in opts
    requires forall o :: o in opts ==> 0 <= Move(p, o).r < d.Length0 && 0 <= Move(p, o).c < d.Length1
    reads d
  {
    exists i :: 0 <= i < k && opts[i] == best && Found(d, p, best)
      && forall j :: 0 <= j < i && Found(d, p, opts[j]) ==>
           d[Move(p, opts[j]).r, Move(p, opts[j]).c] > d[Move(p, best).r, Move(p, best).c]
  }

  /** The scan for the first option with the least non-negative entry. */
  method LeastOption(d: array2<int>, p: Cell, opts: seq<Dir>) returns (best: Dir, ghost found: bool)
    requires opts != []
    requires forall o :: o in opts ==> 0 <= Move(p, o).r < d.Length0 && 0 <= Move(p, o).c < d.Length1
    ensures best in opts && (found ==> Found(d, p, best))
    ensures forall j :: 0 <= j < |opts| && Found(d, p, opts[j]) ==>
              found && d[Move(p, best).r, Move(p, best).c] <= d[Move(p, opts[j]).r, Move(p, opts[j]).c]
    ensures FirstLeast(d, p, opts, best, |opts|) || (!found && best == opts[0])
  {
    best := opts[0];
    var seen, least := false, 0;
    for k := 0 to |opts|
      invariant best in opts && (if seen then FirstLeast(d, p, opts, best, k) else best == opts[0])
      invariant seen ==> Found(d, p, best) && least == d[Move(p, best).r, Move(p, best).c]
      invariant forall j :: 0 <= j < k && Found(d, p, opts[j]) ==> seen && least <= d[Move(p, opts[j]).r, Move(p, opts[j]).c]
    {
      var o := opts[k];
      assert o in opts;
      var v := d[Move(p, o).r, Move(p, o).c];
      if v >= 0 && (!seen || v < least) {
        seen, least, best := true, v, o;
      }
    }
    found := seen;
  }

  // ---- what the choice is ----

  /** One step right, left, down or up into an open cell. */
  ghost predicate OpenStep(g: Grid, p: Cell, o: Dir) {
    && Abs(o.dc) + Abs(o.dr) == 1
    && 0 <= p.c + o.dc < g.cols && 0 <= p.r + o.dr < g.rows && Cell(p.c + o.dc, p.r + o.dr) !in g.walls
  }

  /** Right before left before down before up. */
  function Rank(o: Dir): nat {
    if o.dc == 1 then 0 else if o.dc == -1 then 1 else if o.dr == 1 then 2 else 3
  }

  /** From `p`, `best` is as good as `o`: nearer to the target, or as near and earlier in rank; a cell
      that cannot reach the target is the farthest. */
  ghost predicate AsGood(g: Grid, target: Cell, p: Cell, best: Dir, o: Dir) {
    var b, q := Cell(p.c + best.dc, p.r + best.dr), Cell(p.c + o.dc, p.r + o.dr);
    if Reachable(g, target, q) then
      && Reachable(g, target, b)
      && forall v, w :: IsDistance(g, target, b, v) && IsDistance(g, target, q, w) ==> v < w || (v == w && Rank(best) <= Rank(o))
    else Reachable(g, target, b) || Rank(best) <= Rank(o)
  }

  /** The direction chosen at `p`: none when walled in, else the best of the open ones. */
  ghost predicate Chosen(g: Grid, target: Cell, p: Cell, best: Dir) {
    if forall o :: !OpenStep(g, p, o) then best == Dir(0, 0)
    else OpenStep(g, p, best) && forall o :: OpenStep(g, p, o) ==> AsGood(g, target, p, best, o)
  }

  ghost predicate Ranked(dirs: seq<Dir>) {
    forall i, j :: 0 <= i < j < |dirs| ==> Rank(dirs[i]) < Rank(dirs[j])
  }

  lemma {:induction false} OpensRanked(g: Grid, p: Cell, dirs: seq<Dir>)
    requires Ranked(dirs)
    ensures Ranked(OpensFrom(g, p, dirs))
    decreases |dirs|
  {
    if dirs != [] {
      OpensRanked(g, p, dirs[1..]);
      forall o | o in OpensFrom(g, p, dirs[1..]) ensures Rank(dirs[0]) < Rank(o) { OpensMembers(g, p, dirs[1..], o); }
    }
  }

  /** The options are the open steps, in rank. */
  lemma OptionsAreOpenSteps(g: Grid, p: Cell)
    ensures Ranked(OpensAt(g, p)) && forall o :: o in OpensAt(g, p) <==> OpenStep(g, p, o)
  {
    OpensRanked(g, p, DIRS);
    forall o ensures o in OpensAt(g, p) <==> OpenStep(g, p, o) {
      OpensMembers(g, p, DIRS, o);
      if OpenStep(g, p, o) {
        DirsAreNeighbours(p, Move(p, o));
        var i :| 0 <= i < |DIRS| && Move(p, DIRS[i]) == Move(p, o);
        assert DIRS[i] == o;
      }
    }
  }

  /** An entry of the table tells whether a cell reaches the target, and its distance. */
  lemma EntryMeans(g: Grid, target: Cell, d: array2<int>, q: Cell)
    requires IsDistanceTable(g, target, d) && 0 <= q.r < g.rows && 0 <= q.c < g.cols
    ensures Reachable(g, target, q) <==> d[q.r, q.c] >= 0
    ensures forall v :: IsDistance(g, target, q, v) ==> v == d[q.r, q.c]
  {
    forall v | IsDistance(g, target, q, v) ensures v == d[q.r, q.c] {
      DistanceUnique(g, target, q, v, d[q.r, q.c]);
    }
  }

  lemma LeastIsChosen(g: Grid, target: Cell, p: Cell, d: array2<int>, opts: seq<Dir>, best: Dir, found: bool, o: Dir)
    requires IsDistanceTable(g, target, d) && Ranked(opts) && opts != [] && best in opts && o in opts
    requires forall x :: x in opts ==> OpenStep(g, p, x)
    requires forall x :: x in opts ==> 0 <= Move(p, x).r < d.Length0 && 0 <= Move(p, x).c < d.Length1
    requires found ==> Found(d, p, best)
    requires forall j :: 0 <= j < |opts| && Found(d, p, opts[j]) ==>
               found && d[Move(p, best).r, Move(p, best).c] <= d[Move(p, opts[j]).r, Move(p, opts[j]).c]
    requires FirstLeast(d, p, opts, best, |opts|) || (!found && best == opts[0])
    ensures AsGood(g, target, p, best, o)
  {
    assert OpenStep(g, p, best) && OpenStep(g, p, o);
    EntryMeans(g, target, d, Move(p, best));
    EntryMeans(g, target, d, Move(p, o));
    var j :| 0 <= j < |opts| && opts[j] == o;
  }

  lemma NotWalledIn(g: Grid, target: Cell, p: Cell, n: int)
    requires IsDistance(g, target, p, n) && n > 0
    ensures OpensAt(g, p) != []
  {
    var i := CloserNeighbour(g, target, p, n);
    OpensMembers(g, p, DIRS, DIRS[i]);
  }

  /** The open direction with the least distance, the first of several; standing still only when walled
      in. */
  method BlueDir(g: Grid, target: Cell, p: Cell) returns (best: Dir)
    ensures Chosen(g, target, p, best)
    ensures Downhill(g, target, p, Move(p, best))
  {
    var opts := OpensAt(g, p);
    OptionsAreOpenSteps(g, p);
    forall o ensures o in opts <==> o in DIRS && g.Open(Move(p, o)) { OpensMembers(g, p, DIRS, o); }
    if opts == [] {
      forall n | IsDistance(g, target, p, n) && n > 0 ensures false {
        NotWalledIn(g, target, p, n);
      }
      return Dir(0, 0);
    }
    var d := Bfs(g, target);
    ghost var found;
    best, found := LeastOption(d, p, opts);
    assert OpenStep(g, p, best);
    forall o | OpenStep(g, p, o) ensures AsGood(g, target, p, best, o) {
      LeastIsChosen(g, target, p, d, opts, best, found, o);
    }
    forall n | IsDistance(g, target, p, n) && n > 0
      ensures g.Open(Move(p, best)) && Adjacent(p, Move(p, best)) && IsDistance(g, target, Move(p, best), n - 1)
    {
      BestIsCloser(g, target, p, n, d, opts, best, found);
    }
  }

  lemma BestIsCloser(g: Grid, target: Cell, p: Cell, n: int, d: array2<int>, opts: seq<Dir>, best: Dir, found: bool)
    requires IsDistance(g, target, p, n) && n > 0 && IsDistanceTable(g, target, d)
    requires forall o :: o in opts <==> o in DIRS && g.Open(Move(p, o))
    requires best in opts && (found ==> Found(d, p, best))
    requires forall j :: 0 <= j < |opts| && Found(d, p, opts[j]) ==>
               found && d[Move(p, best).r, Move(p, best).c] <= d[Move(p, opts[j]).r, Move(p, opts[j]).c]
    ensures g.Open(Move(p, best)) && Adjacent(p, Move(p, best)) && IsDistance(g, target, Move(p, best), n - 1)
  {
    var i := CloserNeighbour(g, target, p, n);
    var q := Move(p, DIRS[i]);
    assert DIRS[i] in opts;
    var j :| 0 <= j < |opts| && opts[j] == DIRS[i];
    var path :| WalkBetween(g, target, q, path);
    assert g.Open(path[0]) && Reachable(g, target, q);
    DistanceUnique(g, target, q, d[q.r, q.c], n - 1);
    assert Found(d, p, opts[j]);
    var k :| 0 <= k < |DIRS| && DIRS[k] == best;
    assert Adjacent(p, Move(p, best));
    NeighbourBound(g, target, p, Move(p, best), n, d[Move(p, best).r, Move(p, best).c]);
  }

  // ---- the run ----

  // Fraction of a hop covered in one frame.
  const SP := 0.07

  /** The moving ghost: the cell it is in, the cell it is heading for, how far it has got. */
  class Mover {
    var c: int
    var r: int
    var tc: int
    var tr: int
    var p: real
    var ddc: int
    var ddr: int

    constructor (c: int, r: int)
      ensures Position() == Heading() == Cell(c, r) && p == 0.0
    {
      this.c, this.r, tc, tr, p, ddc, ddr := c, r, c, r, 0.0, 0, 0;
    }

    function Position(): Cell
      reads this
    {
      Cell(c, r)
    }

    function Heading(): Cell
      reads this
    {
      Cell(tc, tr)
    }

    /** One frame. Short of a full hop only `p` moves; otherwise the mover is in the cell it was
        heading for and has chosen the next. */
    method Advance(g: Grid, target: Cell, spd: real) returns (arrived: bool)
      modifies this
      ensures arrived <==> old(p) + spd >= 1.0
      ensures !arrived ==> Position() == old(Position()) && Heading() == old(Heading()) && p == old(p) + spd
      ensures !arrived ==> ddc == old(ddc) && ddr == old(ddr)
      ensures arrived ==> Position() == old(Heading()) && p == 0.0
      ensures arrived ==> Chosen(g, target, Position(), Dir(ddc, ddr)) && Heading() == Cell(c + ddc, r + ddr)
      ensures arrived ==> Downhill(g, target, Position(), Heading())
    {
      p := p + spd;
      arrived := p >= 1.0;
      if arrived {
        c, r, p := tc, tr, 0.0;
        var d := BlueDir(g, target, Cell(c, r));
        if d.dc == 0 && d.dr == 0 {
          tc, tr, ddc, ddr := c, r, 0, 0;
        } else {
          tc, tr, ddc, ddr := c + d.dc, r + d.dr, d.dc, d.dr;
        }
        assert Heading() == Move(Position(), d);
      }
    }

    /** The rescue run, frame after frame until the mover is in the target's cell. Heading for a cell
        at distance `n`, it enters exactly `n + 1` cells, the k-th at distance `n - k`: never a wall,
        each beside the one before, the target last. It enters none if it stood on the target and
        the first frame did not take it off. From a standing start every cell takes fifteen frames. */
    method Rescue(g: Grid, target: Cell, n: nat) returns (ghost entered: seq<Cell>, ghost frames: nat)
      requires IsDistance(g, target, Heading(), n)
      modifies this
      ensures Position() == target && Trail(g, target, n, entered)
      ensures entered == [] ==> old(Position()) == target
      ensures entered != [] ==> |entered| == n + 1 && entered[0] == old(Heading()) && entered[n] == target
      ensures old(p) == 0.0 && entered != [] ==> frames == 15 * (n + 1)
    {
      entered, frames := [], 1;
      var arrived := Advance(g, target, SP);
      if arrived {
        entered := EnterCell(g, target, n, entered, Position());
      }
      while Position() != target
        invariant Trail(g, target, n, entered)
        invariant entered == [] ==> Position() == old(Position()) && Heading() == old(Heading())
        invariant entered != [] ==> entered[0] == old(Heading()) && entered[|entered| - 1] == Position()
        invariant Position() != target ==> |entered| <= n && IsDistance(g, target, Heading(), n - |entered|)
        invariant Position() != target && entered != [] ==> Adjacent(Position(), Heading())
        invariant Position() == target && entered != [] ==> |entered| == n + 1 && p == 0.0
        invariant old(p) == 0.0 ==> Timed(p, frames, |entered|)
        decreases n + 1 - |entered|, (1.0 - p) / SP
      {
        arrived := Advance(g, target, SP);
        frames := frames + 1;
        if arrived {
          entered := EnterCell(g, target, n, entered, Position());
        }
      }
    }
  }

  /** The frames since a standing start: fifteen to a cell, seven hundredths of a hop each. */
  ghost predicate Timed(p: real, frames: nat, cells: nat) {
    15 * cells <= frames < 15 * (cells + 1) && p == 0.07 * (frames - 15 * cells) as real
  }

  /** Cells entered on the way down from distance `n`: the k-th is open and at distance `n - k`, and
      each is beside the one before. */
  ghost predicate Trail(g: Grid, target: Cell, n: nat, entered: seq<Cell>) {
    && (forall k :: 0 <= k < |entered| ==> g.Open(entered[k]) && IsDistance(g, target, entered[k], n - k))
    && (forall k :: 0 <= k < |entered| - 1 ==> Adjacent(entered[k], entered[k + 1]))
  }

  ghost method EnterCell(g: Grid, target: Cell, n: nat, entered: seq<Cell>, p: Cell) returns (trail: seq<Cell>)
    requires Trail(g, target, n, entered) && IsDistance(g, target, p, n - |entered|)
    requires entered != [] ==> Adjacent(entered[|entered| - 1], p)
    ensures trail == entered + [p] && Trail(g, target, n, trail)
    ensures |trail| <= n + 1 && (|trail| == n + 1 <==> p == target)
  {
    OpenAtDistance(g, target, p, n - |entered|);
    trail := entered + [p];
  }

  /** A cell at some distance is open, at distance 0 only if it is the target, and away from the
      target the distance is positive. */
  lemma OpenAtDistance(g: Grid, target: Cell, p: Cell, n: int)
    requires IsDistance(g, target, p, n)
    ensures g.Open(p) && n >= 0 && (n == 0 <==> p == target)
  {
    var path :| WalkBetween(g, target, p, path) && |path| - 1 == n;
    assert g.Open(path[n]);
    if p == target { assert WalkBetween(g, target, p, [p]); }
  }
}
