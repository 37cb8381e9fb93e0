/** Filling the uncovered cells of a stock height map from the covered ones, breadth first over the
    4-connected grid. */
module StockFill {

  /** A grid `w` cells wide and `h` high, and the cells that were covered to begin with. */
  datatype Grid = Grid(w: nat, h: nat, sources: seq<bool>)

  ghost predicate ValidGrid(g: Grid) {
    && g.w > 0 && g.h > 0
    && |g.sources| == g.w * g.h
    && exists s :: 0 <= s < |g.sources| && g.sources[s]
  }

  function Col(i: nat, w: nat): nat requires w > 0 { i % w }

  function Row(i: nat, w: nat): nat requires w > 0 { i / w }

  function Abs(x: int): nat { if x < 0 then -x else x }

  /** Manhattan distance between two cells. */
  function Dist(i: nat, j: nat, w: nat): nat
    requires w > 0
  {
    Abs(Col(i, w) - Col(j, w)) + Abs(Row(i, w) - Row(j, w))
  }

  /** The least distance from `c` to a source among the first `n` cells, or the grid's width plus
      its size if there is none. */
  ghost function LevelUpTo(g: Grid, c: nat, n: nat): (d: nat)
    requires g.w > 0 && n <= |g.sources|
  {
    if n == 0 then g.w + |g.sources|
    else
      var d := LevelUpTo(g, c, n - 1);
      if g.sources[n - 1] && Dist(c, n - 1, g.w) < d then Dist(c, n - 1, g.w) else d
  }

  /** The least Manhattan distance from `c` to a source. */
  ghost function Level(g: Grid, c: nat): nat
    requires ValidGrid(g)
  {
    LevelUpTo(g, c, |g.sources|)
  }

  lemma {:induction false} LevelUpToIs(g: Grid, c: nat, n: nat)
    requires g.w > 0 && n <= |g.sources|
    ensures forall s :: 0 <= s < n && g.sources[s] ==> LevelUpTo(g, c, n) <= Dist(c, s, g.w)
    ensures LevelUpTo(g, c, n) == g.w + |g.sources|
         || exists s :: 0 <= s < n && g.sources[s] && LevelUpTo(g, c, n) == Dist(c, s, g.w)
  {
    hide Dist;
    if n == 0 {
    } else {
      LevelUpToIs(g, c, n - 1);
    }
  }

  lemma CellInGrid(i: nat, w: nat, h: nat)
    requires w > 0 && i < w * h
    ensures Col(i, w) < w && Row(i, w) < h && i == Row(i, w) * w + Col(i, w)
  {
    var y := i / w;
    assert i == y * w + i % w;
    if y >= h {
      MulMono(h, y, w);
    }
  }

  lemma MulMono(a: nat, b: nat, w: nat)
    requires a <= b
    ensures a * w <= b * w
  {
  }

  lemma CellAt(x: nat, y: nat, w: nat, h: nat)
    requires x < w && y < h
    ensures y * w + x < w * h && Col(y * w + x, w) == x && Row(y * w + x, w) == y
  {
    var i := y * w + x;
    MulMono(y + 1, h, w);
    var q, r := i / w, i % w;
    assert i == q * w + r;
    if q < y {
      MulMono(q + 1, y, w);
    } else if q > y {
      MulMono(y + 1, q, w);
    }
  }

  /** The level is attained at a source and no source is nearer. */
  lemma LevelIsMin(g: Grid, c: nat)
    requires ValidGrid(g) && c < |g.sources|
    ensures forall s :: 0 <= s < |g.sources| && g.sources[s] ==> Level(g, c) <= Dist(c, s, g.w)
    ensures exists s :: 0 <= s < |g.sources| && g.sources[s] && Level(g, c) == Dist(c, s, g.w)
  {
    hide LevelUpTo;
    LevelUpToIs(g, c, |g.sources|);
    var s :| 0 <= s < |g.sources| && g.sources[s];
    CellInGrid(c, g.w, g.h);
    CellInGrid(s, g.w, g.h);
    MulGe(g.w, g.h);
  }

  lemma MulGe(a: nat, b: nat)
    requires a > 0 && b > 0
    ensures a * b >= b
  {
  }

  /** Neighbouring cells. */
  ghost predicate Adjacent(i: nat, j: nat, w: nat)
    requires w > 0
  {
    Dist(i, j, w) == 1
  }

  lemma DistSteps(i: nat, j: nat, s: nat, w: nat)
    requires w > 0
    ensures Dist(i, s, w) <= Dist(i, j, w) + Dist(j, s, w)
    ensures Dist(i, j, w) == Dist(j, i, w)
  {
    hide Col, Row;
  }

  /** Levels of neighbours differ by at most one. */
  lemma LevelLipschitz(g: Grid, i: nat, j: nat)
    requires ValidGrid(g) && i < |g.sources| && j < |g.sources| && Adjacent(i, j, g.w)
    ensures Level(g, j) <= Level(g, i) + 1
  {
    hide Dist, Level;
    LevelIsMin(g, i);
    LevelIsMin(g, j);
    var s :| 0 <= s < |g.sources| && g.sources[s] && Level(g, i) == Dist(i, s, g.w);
    DistSteps(j, i, s, g.w);
    DistSteps(i, j, s, g.w);
  }

  /** Level zero is exactly the sources. */
  lemma LevelZero(g: Grid, c: nat)
    requires ValidGrid(g) && c < |g.sources|
    ensures Level(g, c) == 0 <==> g.sources[c]
  {
    hide Level, Dist;
    LevelIsMin(g, c);
    forall s | 0 <= s < |g.sources| ensures Dist(c, s, g.w) == 0 <==> c == s {
      DistZero(c, s, g.w, g.h);
    }
  }

  lemma DistZero(c: nat, s: nat, w: nat, h: nat)
    requires w > 0 && c < w * h && s < w * h
    ensures Dist(c, s, w) == 0 <==> c == s
  {
    hide Col, Row;
    CellInGrid(c, w, h);
    CellInGrid(s, w, h);
  }

  /** From any other cell one step leads down a level. */
  lemma StepDown(g: Grid, c: nat) returns (n: nat)
    requires ValidGrid(g) && c < |g.sources| && Level(g, c) > 0
    ensures n < |g.sources| && Adjacent(c, n, g.w) && Adjacent(n, c, g.w) && Level(g, n) == Level(g, c) - 1
  {
    hide Level;
    LevelIsMin(g, c);
    var s :| 0 <= s < |g.sources| && g.sources[s] && Level(g, c) == Dist(c, s, g.w);
    n := Toward(c, s, g.w, g.h);
    LevelIsMin(g, n);
    LevelLipschitz(g, n, c);
  }

  /** A neighbour of `c` one step nearer to `s`. */
  lemma Toward(c: nat, s: nat, w: nat, h: nat) returns (n: nat)
    requires w > 0 && c < w * h && s < w * h && Dist(c, s, w) > 0
    ensures n < w * h && Adjacent(c, n, w) && Adjacent(n, c, w) && Dist(n, s, w) == Dist(c, s, w) - 1
  {
    hide Col, Row;
    CellInGrid(c, w, h);
    CellInGrid(s, w, h);
    var x, y, sx, sy := Col(c, w), Row(c, w), Col(s, w), Row(s, w);
    if x < sx {
      x := x + 1;
    } else if x > sx {
      x := x - 1;
    } else if y < sy {
      y := y + 1;
    } else {
      y := y - 1;
    }
    CellAt(x, y, w, h);
    n := y * w + x;
  }

  // ----- The fill -----

  function NeighborIndex(x: int, y: int, w: nat, h: nat): (i: int)
    ensures i >= -1
    ensures i == -1 <==> x < 0 || y < 0 || x >= w || y >= h
  {
    if x < 0 || y < 0 || x >= w || y >= h then -1
    else
      MulMono(0, y, w);
      y * w + x
  }

  function Neighbors(idx: nat, w: nat, h: nat): (s: seq<int>)
    requires w > 0
    ensures |s| == 4
  {
    var x: int, y: int := Col(idx, w), Row(idx, w);
    [NeighborIndex(x - 1, y, w, h), NeighborIndex(x + 1, y, w, h), NeighborIndex(x, y - 1, w, h),
     NeighborIndex(x, y + 1, w, h)]
  }

  /** The list of neighbour indices is exactly the adjacent cells, with -1 off the grid. */
  lemma NeighborsAre(idx: nat, w: nat, h: nat)
    requires w > 0 && idx < w * h
    ensures forall k :: 0 <= k < 4 && Neighbors(idx, w, h)[k] >= 0
              ==> Neighbors(idx, w, h)[k] < w * h && Adjacent(idx, Neighbors(idx, w, h)[k], w)
    ensures forall c :: 0 <= c < w * h && Adjacent(idx, c, w) ==> c in Neighbors(idx, w, h)
  {
    var x: int, y: int := Col(idx, w), Row(idx, w);
    var s := Neighbors(idx, w, h);
    NeighborAdjacent(idx, x - 1, y, w, h);
    NeighborAdjacent(idx, x + 1, y, w, h);
    NeighborAdjacent(idx, x, y - 1, w, h);
    NeighborAdjacent(idx, x, y + 1, w, h);
    forall c | 0 <= c < w * h && Adjacent(idx, c, w) ensures c in s {
      AdjacentListed(idx, c, w, h);
      assert s[0] in s && s[1] in s && s[2] in s && s[3] in s;
    }
  }

  lemma NeighborAdjacent(idx: nat, x: int, y: int, w: nat, h: nat)
    requires w > 0 && Abs(x - Col(idx, w)) + Abs(y - Row(idx, w)) == 1
    ensures var i := NeighborIndex(x, y, w, h);
            i >= 0 ==> i < w * h && Adjacent(idx, i, w)
  {
    if 0 <= x < w && 0 <= y < h {
      CellAt(x, y, w, h);
    }
  }

  lemma AdjacentListed(idx: nat, c: nat, w: nat, h: nat)
    requires w > 0 && c < w * h && Adjacent(idx, c, w)
    ensures var x: int, y: int := Col(idx, w), Row(idx, w);
            || c == NeighborIndex(x - 1, y, w, h) || c == NeighborIndex(x + 1, y, w, h)
            || c == NeighborIndex(x, y - 1, w, h) || c == NeighborIndex(x, y + 1, w, h)
  {
    CellInGrid(c, w, h);
    var cx, cy := Col(c, w), Row(c, w);
    assert c == NeighborIndex(cx, cy, w, h);
    hide Col, Row, NeighborIndex;
    var x: int, y: int := Col(idx, w), Row(idx, w);
    assert (cx == x - 1 && cy == y) || (cx == x + 1 && cy == y) || (cx == x && cy == y - 1) || (cx == x && cy == y + 1);
  }

  /** `c`'s height came from a source at minimum distance. */
  ghost predicate FromNearest(g: Grid, before: seq<real>, c: nat, height: real)
    requires ValidGrid(g) && |before| == |g.sources|
  {
    exists s :: 0 <= s < |g.sources| && g.sources[s] && Dist(c, s, g.w) == Level(g, c) && height == before[s]
  }

  /** The breadth-first frontier.  `queue` lists the covered cells by level; cells before `head`
      have all their neighbours covered; every cell up to the level at `head` is covered. */
  ghost predicate Frontier(g: Grid, queue: seq<nat>, head: nat, covered: seq<bool>)
    requires ValidGrid(g) && |covered| == |g.sources|
  {
    && head <= |queue|
    && (forall i :: 0 <= i < |queue| ==> queue[i] < |covered| && covered[queue[i]])
    && (forall c :: 0 <= c < |covered| && covered[c] ==> c in queue)
    && (forall i, j :: 0 <= i < j < |queue| ==> Level(g, queue[i]) <= Level(g, queue[j]))
    && (head < |queue| ==> Level(g, queue[|queue| - 1]) <= Level(g, queue[head]) + 1)
    && (forall i, c :: 0 <= i < head && 0 <= c < |covered| && Adjacent(queue[i], c, g.w) ==> covered[c])
    && (head < |queue| ==> forall c :: 0 <= c < |covered| && Level(g, c) <= Level(g, queue[head]) ==> covered[c])
    && (forall c :: 0 <= c < |covered| && g.sources[c] ==> covered[c])
  }

  /** A cell covered from the cell at the head is one level further out. */
  lemma CoverNext(g: Grid, queue: seq<nat>, head: nat, covered: seq<bool>, next: nat)
    requires ValidGrid(g) && |covered| == |g.sources|
    requires Frontier(g, queue, head, covered) && head < |queue|
    requires next < |covered| && !covered[next] && Adjacent(queue[head], next, g.w)
    ensures Level(g, next) == Level(g, queue[head]) + 1
    ensures Frontier(g, queue + [next], head, covered[next := true])
  {
    hide Level, Dist;
    LevelLipschitz(g, queue[head], next);
    var q, cov := queue + [next], covered[next := true];
    assert forall c :: 0 <= c < |cov| && cov[c] ==> c in q;
  }

  /** Once all neighbours of the head are covered the head moves on: a cell one level further out
      has a neighbour on this level, and that one has been processed. */
  lemma Advance(g: Grid, queue: seq<nat>, head: nat, covered: seq<bool>)
    requires ValidGrid(g) && |covered| == |g.sources|
    requires Frontier(g, queue, head, covered) && head < |queue|
    requires forall c :: 0 <= c < |covered| && Adjacent(queue[head], c, g.w) ==> covered[c]
    ensures Frontier(g, queue, head + 1, covered)
  {
    hide Level, Adjacent;
    if head + 1 < |queue| {
      var d, d' := Level(g, queue[head]), Level(g, queue[head + 1]);
      forall c | 0 <= c < |covered| && Level(g, c) <= d' ensures covered[c] {
        if Level(g, c) > d {
          var n := StepDown(g, c);
          assert covered[n];
          var i :| 0 <= i < |queue| && queue[i] == n;
          assert Level(g, queue[i]) <= d < d';
          assert i <= head;
        }
      }
    }
  }

  /** Covered cells that include the sources and are closed under adjacency are all cells. */
  lemma {:induction false} AllReached(g: Grid, covered: seq<bool>, c: nat)
    requires ValidGrid(g) && |covered| == |g.sources| && c < |covered|
    requires forall s :: 0 <= s < |covered| && g.sources[s] ==> covered[s]
    requires forall i, j :: 0 <= i < |covered| && 0 <= j < |covered| && covered[i] && Adjacent(i, j, g.w) ==> covered[j]
    ensures covered[c]
    decreases Level(g, c)
  {
    hide Level, Adjacent;
    LevelZero(g, c);
    if Level(g, c) > 0 {
      var n := StepDown(g, c);
      AllReached(g, covered, n);
    }
  }

  function CountFalse(s: seq<bool>): nat {
    if s == [] then 0 else (if s[0] then 0 else 1) + CountFalse(s[1..])
  }

  lemma {:induction false} CountFalseUpdate(s: seq<bool>, i: nat)
    requires i < |s| && !s[i]
    ensures CountFalse(s[i := true]) == CountFalse(s) - 1
  {
    if i == 0 {
      assert s[0 := true][1..] == s[1..];
    } else {
      assert s[i := true][1..] == s[1..][i - 1 := true];
      CountFalseUpdate(s[1..], i - 1);
    }
  }

  /** Every covered cell so far has the height of a nearest source. */
  ghost predicate Filled(g: Grid, before: seq<real>, covered: seq<bool>, heights: seq<real>)
    requires ValidGrid(g) && |before| == |covered| == |heights| == |g.sources|
  {
    && (forall c :: 0 <= c < |covered| && covered[c] ==> FromNearest(g, before, c, heights[c]))
    && (forall c :: 0 <= c < |covered| && g.sources[c] ==> heights[c] == before[c])
  }

  /** A cell one level out inherits its neighbour's nearest source. */
  lemma InheritSource(g: Grid, before: seq<real>, i: nat, c: nat, height: real)
    requires ValidGrid(g) && |before| == |g.sources| && i < |before| && c < |before|
    requires FromNearest(g, before, i, height) && Adjacent(i, c, g.w) && Level(g, c) == Level(g, i) + 1
    ensures FromNearest(g, before, c, height)
  {
    hide Level, Dist;
    var s :| 0 <= s < |g.sources| && g.sources[s] && Dist(i, s, g.w) == Level(g, i) && height == before[s];
    DistSteps(c, i, s, g.w);
    DistSteps(i, c, s, g.w);
    LevelIsMin(g, c);
  }

  /** The outer loop's start: the queue is the sources in index order. */
  lemma StartFrontier(g: Grid, queue: seq<nat>)
    requires ValidGrid(g)
    requires forall i :: 0 <= i < |queue| ==> queue[i] < |g.sources| && g.sources[queue[i]]
    requires forall c :: 0 <= c < |g.sources| && g.sources[c] ==> c in queue
    ensures Frontier(g, queue, 0, g.sources)
  {
    hide Level, Adjacent;
    forall c | 0 <= c < |g.sources| ensures Level(g, c) == 0 <==> g.sources[c] {
      LevelZero(g, c);
    }
  }

  lemma StartFilled(g: Grid, before: seq<real>)
    requires ValidGrid(g) && |before| == |g.sources|
    ensures Filled(g, before, g.sources, before)
  {
    hide Level;
    forall c | 0 <= c < |g.sources| && g.sources[c] ensures FromNearest(g, before, c, before[c]) {
      LevelZero(g, c);
      DistZero(c, c, g.w, g.h);
    }
  }

  /** When the queue is exhausted every cell is covered. */
  lemma Exhausted(g: Grid, queue: seq<nat>, covered: seq<bool>)
    requires ValidGrid(g) && |covered| == |g.sources|
    requires Frontier(g, queue, |queue|, covered)
    ensures forall c :: 0 <= c < |covered| ==> covered[c]
  {
    hide Level, Adjacent;
    forall i, j | 0 <= i < |covered| && 0 <= j < |covered| && covered[i] && Adjacent(i, j, g.w) ensures covered[j] {
      var k :| 0 <= k < |queue| && queue[k] == i;
    }
    forall c | 0 <= c < |covered| ensures covered[c] {
      AllReached(g, covered, c);
    }
  }

  /** The covered cells, in index order. */
  method CollectSources(covered: array<bool>) returns (queue: seq<nat>)
    ensures forall i :: 0 <= i < |queue| ==> queue[i] < covered.Length && covered[queue[i]]
    ensures forall c :: 0 <= c < covered.Length && covered[c] ==> c in queue
    ensures |queue| + CountFalse(covered[..]) == covered.Length
  {
    queue := [];
    for i := 0 to covered.Length
      invariant forall k :: 0 <= k < |queue| ==> queue[k] < i && covered[queue[k]]
      invariant forall c :: 0 <= c < i && covered[c] ==> c in queue
      invariant |queue| + CountFalse(covered[..i]) == i
    {
      CountFalseAppend(covered[..i], covered[i]);
      assert covered[..i + 1] == covered[..i] + [covered[i]];
      if covered[i] {
        queue := queue + [i];
      }
    }
    assert covered[..covered.Length] == covered[..];
  }

  lemma {:induction false} CountFalseAppend(s: seq<bool>, b: bool)
    ensures CountFalse(s + [b]) == CountFalse(s) + if b then 0 else 1
  {
    if s == [] {
      assert s + [b] == [b] && [b][1..] == [];
    } else {
      assert (s + [b])[1..] == s[1..] + [b];
      CountFalseAppend(s[1..], b);
    }
  }

  /** The inner loop: cover the uncovered neighbours of the cell at the head. */
  method CoverNeighbors(ghost g: Grid, ghost before: seq<real>, heights: array<real>, covered: array<bool>,
                        queue: seq<nat>, head: nat, cellsX: nat, cellsY: nat) returns (queue': seq<nat>)
    requires ValidGrid(g) && cellsX == g.w && cellsY == g.h
    requires heights.Length == covered.Length == |before| == |g.sources|
    requires Frontier(g, queue, head, covered[..]) && head < |queue|
    requires Filled(g, before, covered[..], heights[..])
    requires |queue| + CountFalse(covered[..]) == covered.Length
    modifies heights, covered
    ensures Frontier(g, queue', head + 1, covered[..])
    ensures Filled(g, before, covered[..], heights[..])
    ensures |queue'| + CountFalse(covered[..]) == covered.Length
  {
    hide Frontier, Filled, Level, Adjacent, FromNearest, CountFalse, Neighbors;
    queue' := queue;
    var idx := HeadInGrid(g, queue, head, covered[..]);
    NeighborsAre(idx, cellsX, cellsY);
    var around := Neighbors(idx, cellsX, cellsY);
    for k := 0 to 4
      invariant head < |queue'| && queue'[head] == idx
      invariant Frontier(g, queue', head, covered[..])
      invariant Filled(g, before, covered[..], heights[..])
      invariant |queue'| + CountFalse(covered[..]) == covered.Length
      invariant forall m :: 0 <= m < k && around[m] >= 0 ==> covered[around[m]]
    {
      var next := around[k];
      if next < 0 || covered[next] {
        continue;
      }
      CoverNext(g, queue', head, covered[..], next);
      CoverFills(g, before, covered[..], heights[..], idx, next, queue', head);
      CountFalseUpdate(covered[..], next);
      ghost var cov, hts := covered[..], heights[..];
      covered[next] := true;
      heights[next] := heights[idx];
      assert covered[..] == cov[next := true] && heights[..] == hts[next := hts[idx]];
      queue' := queue' + [next];
    }
    Advance(g, queue', head, covered[..]);
  }

  method HeadInGrid(ghost g: Grid, queue: seq<nat>, head: nat, ghost covered: seq<bool>) returns (idx: nat)
    requires ValidGrid(g) && |covered| == |g.sources| && Frontier(g, queue, head, covered) && head < |queue|
    ensures idx == queue[head] < |covered|
  {
    idx := queue[head];
  }

  lemma CoverFills(g: Grid, before: seq<real>, covered: seq<bool>, heights: seq<real>, idx: nat, next: nat,
                   queue: seq<nat>, head: nat)
    requires ValidGrid(g) && |before| == |covered| == |heights| == |g.sources|
    requires Frontier(g, queue, head, covered) && head < |queue| && queue[head] == idx
    requires Filled(g, before, covered, heights)
    requires next < |covered| && !covered[next] && idx < |covered| && Adjacent(idx, next, g.w)
    requires Level(g, next) == Level(g, idx) + 1
    ensures Filled(g, before, covered[next := true], heights[next := heights[idx]])
  {
    hide Level, Adjacent, FromNearest;
    InheritSource(g, before, idx, next, heights[idx]);
  }

  /** The outer loop over the queue. */
  method FillFromSources(ghost g: Grid, ghost before: seq<real>, heights: array<real>, covered: array<bool>,
                         sources: seq<nat>, cellsX: nat, cellsY: nat)
    requires ValidGrid(g) && cellsX == g.w && cellsY == g.h
    requires heights.Length == covered.Length == |before| == |g.sources|
    requires Frontier(g, sources, 0, covered[..])
    requires Filled(g, before, covered[..], heights[..])
    requires |sources| + CountFalse(covered[..]) == covered.Length
    modifies heights, covered
    ensures WellFilled(g, before, covered[..], heights[..])
  {
    hide Level, Frontier, Filled, WellFilled, CountFalse;
    var queue := sources;
    var head := 0;
    while head < |queue|
      invariant head <= |queue|
      invariant Frontier(g, queue, head, covered[..])
      invariant Filled(g, before, covered[..], heights[..])
      invariant |queue| + CountFalse(covered[..]) == covered.Length
      decreases covered.Length - head
    {
      queue := CoverNeighbors(g, before, heights, covered, queue, head, cellsX, cellsY);
      head := head + 1;
      assert head <= |queue| by { HeadBounded(g, queue, head, covered[..]); }
    }
    Exhausted(g, queue, covered[..]);
    CoveredIsFilled(g, before, covered[..], heights[..]);
  }

  lemma HeadBounded(g: Grid, queue: seq<nat>, head: nat, covered: seq<bool>)
    requires ValidGrid(g) && |covered| == |g.sources| && Frontier(g, queue, head, covered)
    ensures head <= |queue|
  {
  }

  /** A usable grid, as the function's first check demands. */
  predicate Usable(n: nat, m: nat, cellsX: int, cellsY: int) {
    n > 0 && n == m && cellsX > 0 && cellsY > 0
  }

  /** The whole fill.  Without a grid, or with nothing covered, it returns early; otherwise it
      terminates with every cell covered, source heights kept, and each other cell given the height
      of an originally covered cell at minimum Manhattan distance. */
  method FillUncoveredStockHeights(heights: array<real>, covered: array<bool>, cellsX: int, cellsY: int,
                                   fallbackTop: real)
    requires Usable(heights.Length, covered.Length, cellsX, cellsY) ==> heights.Length == cellsX * cellsY
    modifies heights, covered
    ensures !Usable(heights.Length, covered.Length, cellsX, cellsY) ==>
              heights[..] == old(heights[..]) && covered[..] == old(covered[..])
    ensures Usable(heights.Length, covered.Length, cellsX, cellsY) && !(true in old(covered[..])) ==>
              covered[..] == old(covered[..]) && forall c :: 0 <= c < heights.Length ==> heights[c] == fallbackTop
    ensures Usable(heights.Length, covered.Length, cellsX, cellsY) && true in old(covered[..]) ==>
              WellFilled(Grid(cellsX, cellsY, old(covered[..])), old(heights[..]), covered[..], heights[..])
  {
    hide ValidGrid, Frontier, Filled, WellFilled, CountFalse;
    if heights.Length == 0 || heights.Length != covered.Length || cellsX <= 0 || cellsY <= 0 {
      return;
    }
    var queue := CollectSources(covered);
    if |queue| == 0 {
      for i := 0 to heights.Length
        invariant forall k :: 0 <= k < i ==> heights[k] == fallbackTop
        invariant covered[..] == old(covered[..])
      {
        heights[i] := fallbackTop;
      }
      return;
    }
    ghost var g := Grid(cellsX, cellsY, covered[..]);
    assert covered[..][queue[0]];
    AGrid(g, queue[0]);
    StartFrontier(g, queue);
    StartFilled(g, heights[..]);
    FillFromSources(g, heights[..], heights, covered, queue, cellsX, cellsY);
  }

  lemma AGrid(g: Grid, s: nat)
    requires g.w > 0 && g.h > 0 && |g.sources| == g.w * g.h && s < |g.sources| && g.sources[s]
    ensures ValidGrid(g)
  {
  }

  /** Every cell is covered and has the height of a nearest source; sources keep their own. */
  ghost predicate WellFilled(g: Grid, before: seq<real>, covered: seq<bool>, heights: seq<real>) {
    && ValidGrid(g) && |before| == |covered| == |heights| == |g.sources|
    && (forall c :: 0 <= c < |covered| ==> covered[c] && FromNearest(g, before, c, heights[c]))
    && (forall c :: 0 <= c < |covered| && g.sources[c] ==> heights[c] == before[c])
  }

  lemma CoveredIsFilled(g: Grid, before: seq<real>, covered: seq<bool>, heights: seq<real>)
    requires ValidGrid(g) && |before| == |covered| == |heights| == |g.sources|
    requires Filled(g, before, covered, heights)
    requires forall c :: 0 <= c < |covered| ==> covered[c]
    ensures WellFilled(g, before, covered, heights)
  {
    hide FromNearest;
  }
}
