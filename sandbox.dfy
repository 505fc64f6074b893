/** The falling-sand sandbox: a 200 x 150 grid of cells, a brush that
    paints a square of cells under the mouse, and one physics step made of
    four in-place sweeps over the grid (sand and water falling bottom-up,
    smoke rising top-down, fire dying out, fire spreading).

    The grid is an array2 indexed [x, y] with y growing downwards, as in
    the program. Raylib's GetRandomValue(lo, hi) is an oracle: rnd(site,
    x, y) is the raw draw made at a call site while the sweep visits cell
    (x, y), and Random maps it into [lo, hi]. */
module Sandbox {
  import Blocks

  /** The cell types, in the order of their numeric values 0..5. */
  datatype Cell = Empty | Sand | Water | Stone | Smoke | Fire

  const CELL_SIZE: int := 4
  /** 800 / 4 and 600 / 4: the window size in cells. */
  const CELLS_X: int := 800 / CELL_SIZE
  const CELLS_Y: int := 600 / CELL_SIZE

  /** The grid as a value: g[x][y]. */
  type Grid = seq<seq<Cell>>

  predicate IsGrid(g: Grid) {
    |g| == CELLS_X && forall i :: 0 <= i < |g| ==> |g[i]| == CELLS_Y
  }

  predicate InGrid(x: int, y: int) {
    0 <= x < CELLS_X && 0 <= y < CELLS_Y
  }

  /** Writing one cell: that cell holds v, every other cell is unchanged. */
  function Put(g: Grid, x: int, y: int, v: Cell): (r: Grid)
    requires IsGrid(g) && InGrid(x, y)
    ensures IsGrid(r)
  {
    g[x := g[x][y := v]]
  }

  /** After a write, the written cell holds the new value and every other
      cell is unchanged. */
  lemma PutCells(g: Grid, x: int, y: int, v: Cell)
    requires IsGrid(g) && InGrid(x, y)
    ensures forall i, j :: InGrid(i, j) ==> Put(g, x, y, v)[i][j] == if i == x && j == y then v else g[i][j]
  {
  }

  /** A particle moving: the target cell is written first, then the
      source cell, as every rule of the program does. */
  function Move(g: Grid, x: int, y: int, tx: int, ty: int, particle: Cell, left: Cell): (r: Grid)
    requires IsGrid(g) && InGrid(x, y) && InGrid(tx, ty)
    ensures IsGrid(r)
  {
    Put(Put(g, tx, ty, particle), x, y, left)
  }

  /** Two grids that agree on every cell are equal. */
  lemma GridExtensionality(a: Grid, b: Grid)
    requires IsGrid(a) && IsGrid(b)
    requires forall i, j :: InGrid(i, j) ==> a[i][j] == b[i][j]
    ensures a == b
  {
    forall i | 0 <= i < CELLS_X
      ensures a[i] == b[i]
    {
      assert forall j :: 0 <= j < CELLS_Y ==> a[i][j] == b[i][j];
    }
  }

  // ---------------------------------------------------------------------------
  // Randomness

  /** The call sites of GetRandomValue, one per distinct use. */
  datatype Site = SandSide | WaterSide | WaterLevel | SmokeFade | SmokeDrift
                | SmokeDriftSide | SmokePick | FireFade | Ignite

  /** The raw draws: one per call site and visited cell. */
  type Rng = (Site, int, int) -> int

  /** GetRandomValue(lo, hi) at a site while visiting (x, y): the draw
      when it lies in [lo, hi], so any value of the range can come up, and
      lo otherwise. */
  function Random(rnd: Rng, site: Site, x: int, y: int, lo: int, hi: int): (r: int)
    requires lo <= hi
    ensures lo <= r <= hi
    ensures lo <= rnd(site, x, y) <= hi ==> r == rnd(site, x, y)
  {
    var d := rnd(site, x, y);
    if lo <= d <= hi then d else lo
  }

  // ---------------------------------------------------------------------------
  // The brush

  /** C's division, truncating toward zero. */
  function Half(n: int): (h: int)
    ensures n >= 0 ==> 0 <= 2 * h <= n <= 2 * h + 1
    ensures n < 0 ==> 2 * h - 1 <= n <= 2 * h <= 0
  {
    Blocks.TruncDiv(n, 2)
  }

  /** The brush offsets run over [-size/2, size/2) on both axes, with C's
      truncating division. */
  predicate InBrush(dx: int, dy: int, size: int)
    ensures size >= 0 ==> (InBrush(dx, dy, size) <==> -(size / 2) <= dx < size / 2 && -(size / 2) <= dy < size / 2)
    ensures size <= 1 ==> !InBrush(dx, dy, size)
  {
    Half(-size) <= dx < Half(size) && Half(-size) <= dy < Half(size)
  }

  /** What the brush leaves in a painted cell: fire only catches on sand
      or stone, every other type overwrites. */
  function Paint(c: Cell, ty: Cell): (r: Cell)
    ensures ty != Fire ==> r == ty
    ensures ty == Fire ==> (r == Fire <==> c == Sand || c == Stone || c == Fire)
    ensures ty == Fire && r != Fire ==> r == c
  {
    if ty == Fire then (if c == Sand || c == Stone then Fire else c) else ty
  }

  /** Paints the brush square of the given size centred on the mouse cell.
      Only in-bounds cells are written; every other cell is unchanged. */
  method PlacePixels(cells: array2<Cell>, mouseX: int, mouseY: int, size: int, ty: Cell)
    requires cells.Length0 == CELLS_X && cells.Length1 == CELLS_Y
    modifies cells
    ensures forall i, j :: InGrid(i, j) ==>
      cells[i, j] == if InBrush(i - mouseX, j - mouseY, size) then Paint(old(cells[i, j]), ty) else old(cells[i, j])
  {
    var lo, hi := Half(-size), Half(size);
    var dx := lo;
    while dx < hi
      invariant lo <= hi ==> lo <= dx <= hi
      invariant forall i, j :: InGrid(i, j) ==>
        cells[i, j] == if lo <= i - mouseX < dx && lo <= j - mouseY < hi then Paint(old(cells[i, j]), ty) else old(cells[i, j])
    {
      var dy := lo;
      while dy < hi
        invariant lo <= dy <= hi
        invariant forall i, j :: InGrid(i, j) ==>
          cells[i, j] == if (lo <= i - mouseX < dx && lo <= j - mouseY < hi) || (i - mouseX == dx && lo <= j - mouseY < dy)
                         then Paint(old(cells[i, j]), ty) else old(cells[i, j])
      {
        var tx, ty' := mouseX + dx, mouseY + dy;
        if tx >= 0 && tx < CELLS_X && ty' >= 0 && ty' < CELLS_Y {
          if ty == Fire {
            if cells[tx, ty'] == Sand || cells[tx, ty'] == Stone {
              cells[tx, ty'] := Fire;
            }
          } else {
            cells[tx, ty'] := ty;
          }
        }
        dy := dy + 1;
      }
      dx := dx + 1;
    }
  }

  // ---------------------------------------------------------------------------
  // The per-cell rules, as functions on the grid

  /** A sideways move onto row ty: both sides free picks a side at random
      (0 means left), otherwise the free side is taken, otherwise nothing
      moves. */
  function Spill(g: Grid, x: int, y: int, ty: int, left: bool, right: bool,
                 particle: Cell, site: Site, rnd: Rng): (r: Grid)
    requires IsGrid(g) && InGrid(x, y) && 0 <= ty < CELLS_Y
    requires left ==> x - 1 >= 0
    requires right ==> x + 1 < CELLS_X
    ensures IsGrid(r)
  {
    if left && right then
      var d := if Random(rnd, site, x, y, 0, 1) == 0 then -1 else 1;
      Move(g, x, y, x + d, ty, particle, Empty)
    else if left then Move(g, x, y, x - 1, ty, particle, Empty)
    else if right then Move(g, x, y, x + 1, ty, particle, Empty)
    else g
  }

  /** Sand at (x, y): falls into empty space, sinks through water by
      swapping with it, or slides diagonally down into an empty cell when
      the cell below is neither stone nor fire. */
  function SandRule(g: Grid, x: int, y: int, rnd: Rng): (r: Grid)
    requires IsGrid(g) && InGrid(x, y)
    ensures IsGrid(r)
  {
    if g[x][y] == Sand && y + 1 < CELLS_Y then
      var below := g[x][y + 1];
      if below == Empty then Move(g, x, y, x, y + 1, Sand, Empty)
      else if below == Water then Move(g, x, y, x, y + 1, Sand, Water)
      else if below != Stone && below != Fire then
        var left := x - 1 >= 0 && g[x - 1][y + 1] == Empty;
        var right := x + 1 < CELLS_X && g[x + 1][y + 1] == Empty;
        Spill(g, x, y, y + 1, left, right, Sand, SandSide, rnd)
      else g
    else g
  }

  /** Water at (x, y): quenches fire below (both cells empty), falls into
      empty space, flows diagonally down, or else spreads sideways. */
  function WaterRule(g: Grid, x: int, y: int, rnd: Rng): (r: Grid)
    requires IsGrid(g) && InGrid(x, y)
    ensures IsGrid(r)
  {
    if g[x][y] != Water then g
    else if y + 1 < CELLS_Y && g[x][y + 1] == Fire then Put(Put(g, x, y + 1, Empty), x, y, Empty)
    else if y + 1 < CELLS_Y && g[x][y + 1] == Empty then Move(g, x, y, x, y + 1, Water, Empty)
    else
      var left := x - 1 >= 0 && y + 1 < CELLS_Y && g[x - 1][y + 1] == Empty;
      var right := x + 1 < CELLS_X && y + 1 < CELLS_Y && g[x + 1][y + 1] == Empty;
      if left || right then Spill(g, x, y, y + 1, left, right, Water, WaterSide, rnd)
      else
        var leftH := x - 1 >= 0 && g[x - 1][y] == Empty;
        var rightH := x + 1 < CELLS_X && g[x + 1][y] == Empty;
        Spill(g, x, y, y, leftH, rightH, Water, WaterLevel, rnd)
  }

  /** The number of smoke escape directions. */
  const DIRECTIONS: nat := 4

  /** The four smoke escape directions, in the order they are tried. */
  function DirX(i: int): int { if i == 0 || i == 2 then -1 else 1 }
  function DirY(i: int): int { if i < 2 then -1 else 0 }

  /** Direction i leads to an empty cell inside the grid. */
  predicate OpenDir(g: Grid, x: int, y: int, i: int)
    requires IsGrid(g)
  {
    InGrid(x + DirX(i), y + DirY(i)) && g[x + DirX(i)][y + DirY(i)] == Empty
  }

  /** The open directions among the first n, in order. */
  function OpenDirs(g: Grid, x: int, y: int, n: nat): (s: seq<int>)
    requires IsGrid(g) && n <= DIRECTIONS
    ensures |s| <= n
    ensures forall k :: 0 <= k < |s| ==> 0 <= s[k] < n && OpenDir(g, x, y, s[k])
    decreases n
  {
    if n == 0 then []
    else if OpenDir(g, x, y, n - 1) then OpenDirs(g, x, y, n - 1) + [n - 1]
    else OpenDirs(g, x, y, n - 1)
  }

  /** Smoke at (x, y): vanishes with probability 2/101, otherwise rises
      into empty space above (drifting diagonally when the drift draw says
      so and that cell is free), or else escapes through a random open
      direction among up-left, up-right, left and right. */
  function SmokeRule(g: Grid, x: int, y: int, rnd: Rng): (r: Grid)
    requires IsGrid(g) && InGrid(x, y)
    ensures IsGrid(r)
  {
    if g[x][y] != Smoke then g
    else if Random(rnd, SmokeFade, x, y, 0, 100) < 2 then Put(g, x, y, Empty)
    else if y - 1 >= 0 && g[x][y - 1] == Empty then SmokeRiseRule(g, x, y, rnd)
    else SmokeEscapeRule(g, x, y, rnd)
  }

  /** Rising smoke drifts to the side with probability 3/11 when the
      diagonal cell above is free, and otherwise goes straight up. */
  function SmokeRiseRule(g: Grid, x: int, y: int, rnd: Rng): (r: Grid)
    requires IsGrid(g) && InGrid(x, y) && y - 1 >= 0
    ensures IsGrid(r)
  {
    var nx := x + (if Random(rnd, SmokeDriftSide, x, y, 0, 1) != 0 then -1 else 1);
    if Random(rnd, SmokeDrift, x, y, 0, 10) < 3 && 0 <= nx < CELLS_X && g[nx][y - 1] == Empty
    then Move(g, x, y, nx, y - 1, Smoke, Empty)
    else Move(g, x, y, x, y - 1, Smoke, Empty)
  }

  /** The open direction blocked smoke takes: one picked uniformly from
      the open ones. */
  function EscapeDir(g: Grid, x: int, y: int, rnd: Rng): (c: int)
    requires IsGrid(g) && |OpenDirs(g, x, y, DIRECTIONS)| > 0
    ensures 0 <= c < 4 && OpenDir(g, x, y, c)
  {
    var open := OpenDirs(g, x, y, DIRECTIONS);
    open[Random(rnd, SmokePick, x, y, 0, |open| - 1)]
  }

  /** Blocked smoke moves through the picked open direction, or stays
      when no direction is open. */
  function SmokeEscapeRule(g: Grid, x: int, y: int, rnd: Rng): (r: Grid)
    requires IsGrid(g) && InGrid(x, y)
    ensures IsGrid(r)
  {
    if |OpenDirs(g, x, y, DIRECTIONS)| > 0 then EscapeMove(g, x, y, EscapeDir(g, x, y, rnd))
    else g
  }

  /** Smoke moving through open direction c. */
  function EscapeMove(g: Grid, x: int, y: int, c: int): (r: Grid)
    requires IsGrid(g) && InGrid(x, y) && OpenDir(g, x, y, c)
    ensures IsGrid(r)
  {
    Move(g, x, y, x + DirX(c), y + DirY(c), Smoke, Empty)
  }

  /** Fire stands on sand or stone, or on the bottom edge of the grid. */
  predicate Supported(g: Grid, x: int, y: int)
    requires IsGrid(g) && InGrid(x, y)
  {
    y == CELLS_Y - 1 || (y + 1 < CELLS_Y && (g[x][y + 1] == Sand || g[x][y + 1] == Stone))
  }

  /** Fire at (x, y): unsupported fire turns to smoke; supported fire
      turns to smoke with probability 1/41. */
  function FireRule(g: Grid, x: int, y: int, rnd: Rng): (r: Grid)
    requires IsGrid(g) && InGrid(x, y)
    ensures IsGrid(r)
  {
    if g[x][y] != Fire then g
    else if !Supported(g, x, y) then Put(g, x, y, Smoke)
    else if Random(rnd, FireFade, x, y, 0, 40) == 0 then Put(g, x, y, Smoke)
    else g
  }

  /** The neighbour at offset (dx, dy), other than the cell itself, is an
      in-grid fire. */
  predicate FireNeighbour(g: Grid, x: int, y: int, dx: int, dy: int)
    requires IsGrid(g)
  {
    !(dx == 0 && dy == 0) && InGrid(x + dx, y + dy) && g[x + dx][y + dy] == Fire
  }

  /** One of the eight neighbours of (x, y) is fire. */
  predicate NearFire(g: Grid, x: int, y: int)
    requires IsGrid(g)
  {
    exists dx, dy :: -1 <= dx <= 1 && -1 <= dy <= 1 && FireNeighbour(g, x, y, dx, dy)
  }

  /** Sand or stone next to fire catches fire with probability 1/9 (sand)
      or 1/16 (stone). */
  function SpreadRule(g: Grid, x: int, y: int, rnd: Rng): (r: Grid)
    requires IsGrid(g) && InGrid(x, y)
    ensures IsGrid(r)
  {
    var current := g[x][y];
    if (current == Sand || current == Stone) && NearFire(g, x, y) && current != Fire then
      var prob := if current == Sand then 8 else 15;
      if Random(rnd, Ignite, x, y, 0, prob) == 0 then Put(g, x, y, Fire) else g
    else g
  }

  // ---------------------------------------------------------------------------
  // The sweeps

  /** The four sweeps of one physics step, in the order they run. */
  datatype Pass = SandWaterPass | SmokePass | FirePass | SpreadPass

  /** The update one sweep makes at one cell; the sand and water sweep
      applies the water rule to whatever the sand rule left at the cell. */
  function CellRule(pass: Pass, g: Grid, x: int, y: int, rnd: Rng): (r: Grid)
    requires IsGrid(g) && InGrid(x, y)
    ensures IsGrid(r)
  {
    match pass
    case SandWaterPass => WaterRule(SandRule(g, x, y, rnd), x, y, rnd)
    case SmokePass => SmokeRule(g, x, y, rnd)
    case FirePass => FireRule(g, x, y, rnd)
    case SpreadPass => SpreadRule(g, x, y, rnd)
  }

  /** The k-th row a sweep visits: sand and water go bottom-up, the other
      sweeps top-down. */
  function RowAt(pass: Pass, k: int): (y: int)
    requires 0 <= k < CELLS_Y
    ensures 0 <= y < CELLS_Y
  {
    if pass == SandWaterPass then CELLS_Y - 1 - k else k
  }

  /** The first n cells of row y, left to right. */
  function RowSweep(pass: Pass, g: Grid, y: int, n: nat, rnd: Rng): (r: Grid)
    requires IsGrid(g) && 0 <= y < CELLS_Y && n <= CELLS_X
    ensures IsGrid(r)
  {
    if n == 0 then g else CellRule(pass, RowSweep(pass, g, y, n - 1, rnd), n - 1, y, rnd)
  }

  /** The first m rows of a sweep. */
  function Rows(pass: Pass, g: Grid, m: nat, rnd: Rng): (r: Grid)
    requires IsGrid(g) && m <= CELLS_Y
    ensures IsGrid(r)
  {
    if m == 0 then g else RowSweep(pass, Rows(pass, g, m - 1, rnd), RowAt(pass, m - 1), CELLS_X, rnd)
  }

  /** One physics step: the four sweeps in order. */
  function Step(g: Grid, rnd: Rng): (r: Grid)
    requires IsGrid(g)
    ensures IsGrid(r)
  {
    var g1 := Rows(SandWaterPass, g, CELLS_Y, rnd);
    var g2 := Rows(SmokePass, g1, CELLS_Y, rnd);
    var g3 := Rows(FirePass, g2, CELLS_Y, rnd);
    Rows(SpreadPass, g3, CELLS_Y, rnd)
  }

  // ---------------------------------------------------------------------------
  // Properties of the rules

  /** Sand above an empty cell falls into it, and nothing else changes. */
  lemma SandFallsIntoEmpty(g: Grid, x: int, y: int, rnd: Rng)
    requires IsGrid(g) && InGrid(x, y) && y + 1 < CELLS_Y
    requires g[x][y] == Sand && g[x][y + 1] == Empty
    ensures var r := SandRule(g, x, y, rnd);
      r[x][y] == Empty && r[x][y + 1] == Sand &&
      forall i, j :: InGrid(i, j) && !(i == x && (j == y || j == y + 1)) ==> r[i][j] == g[i][j]
  {
  }

  /** Sand above water swaps with it, and nothing else changes. */
  lemma SandSinksThroughWater(g: Grid, x: int, y: int, rnd: Rng)
    requires IsGrid(g) && InGrid(x, y) && y + 1 < CELLS_Y
    requires g[x][y] == Sand && g[x][y + 1] == Water
    ensures var r := SandRule(g, x, y, rnd);
      r[x][y] == Water && r[x][y + 1] == Sand &&
      forall i, j :: InGrid(i, j) && !(i == x && (j == y || j == y + 1)) ==> r[i][j] == g[i][j]
  {
  }

  /** The sand rule is a swap of the sand cell with an empty or water cell
      directly or diagonally below it, or no change at all: sand is never
      created or destroyed, and never enters stone or fire. */
  lemma SandRuleSwaps(g: Grid, x: int, y: int, rnd: Rng)
    requires IsGrid(g) && InGrid(x, y)
    ensures var r := SandRule(g, x, y, rnd);
      r == g ||
      (g[x][y] == Sand && y + 1 < CELLS_Y &&
       exists tx :: x - 1 <= tx <= x + 1 && InGrid(tx, y + 1) &&
         (g[tx][y + 1] == Empty || g[tx][y + 1] == Water) &&
         r == Put(Put(g, tx, y + 1, Sand), x, y, g[tx][y + 1]))
  {
    var r := SandRule(g, x, y, rnd);
    if g[x][y] == Sand && y + 1 < CELLS_Y {
      var below := g[x][y + 1];
      if below == Empty || below == Water {
        assert r == Put(Put(g, x, y + 1, Sand), x, y, g[x][y + 1]);
      } else if below != Stone && below != Fire {
        var left := x - 1 >= 0 && g[x - 1][y + 1] == Empty;
        var right := x + 1 < CELLS_X && g[x + 1][y + 1] == Empty;
        if left && right {
          var d := if Random(rnd, SandSide, x, y, 0, 1) == 0 then -1 else 1;
          assert r == Put(Put(g, x + d, y + 1, Sand), x, y, g[x + d][y + 1]);
        } else if left {
          assert r == Put(Put(g, x - 1, y + 1, Sand), x, y, g[x - 1][y + 1]);
        } else if right {
          assert r == Put(Put(g, x + 1, y + 1, Sand), x, y, g[x + 1][y + 1]);
        }
      }
    }
  }

  /** Water directly above fire puts it out: both cells become empty and
      nothing else changes. */
  lemma WaterQuenchesFire(g: Grid, x: int, y: int, rnd: Rng)
    requires IsGrid(g) && InGrid(x, y) && y + 1 < CELLS_Y
    requires g[x][y] == Water && g[x][y + 1] == Fire
    ensures var r := WaterRule(g, x, y, rnd);
      r[x][y] == Empty && r[x][y + 1] == Empty &&
      forall i, j :: InGrid(i, j) && !(i == x && (j == y || j == y + 1)) ==> r[i][j] == g[i][j]
  {
  }

  /** Fire off the bottom row with neither sand nor stone below becomes
      smoke; on the bottom row it counts as supported and only the 1/41
      draw turns it to smoke. */
  lemma UnsupportedFireBecomesSmoke(g: Grid, x: int, y: int, rnd: Rng)
    requires IsGrid(g) && InGrid(x, y) && g[x][y] == Fire
    ensures y < CELLS_Y - 1 && g[x][y + 1] != Sand && g[x][y + 1] != Stone ==>
      FireRule(g, x, y, rnd) == Put(g, x, y, Smoke)
    ensures y == CELLS_Y - 1 ==>
      FireRule(g, x, y, rnd) == if Random(rnd, FireFade, x, y, 0, 40) == 0 then Put(g, x, y, Smoke) else g
  {
  }

  /** The spread rule changes at most the visited cell, and only from sand
      or stone to fire, and only when a neighbour is fire; conversely such
      a cell ignites exactly when its draw is 0. */
  lemma SpreadIgnitesOnlyNextToFire(g: Grid, x: int, y: int, rnd: Rng)
    requires IsGrid(g) && InGrid(x, y)
    ensures var r := SpreadRule(g, x, y, rnd);
      (r == g || (r == Put(g, x, y, Fire) && (g[x][y] == Sand || g[x][y] == Stone) && NearFire(g, x, y)))
    ensures (g[x][y] == Sand || g[x][y] == Stone) && NearFire(g, x, y) ==>
      (SpreadRule(g, x, y, rnd)[x][y] == Fire <==>
       Random(rnd, Ignite, x, y, 0, if g[x][y] == Sand then 8 else 15) == 0)
  {
  }

  /** Smoke moves into an empty cell (up, diagonally up, or sideways) by
      one step. */
  predicate SmokeMoved(g: Grid, x: int, y: int, r: Grid)
    requires IsGrid(g) && InGrid(x, y)
  {
    exists tx, ty :: x - 1 <= tx <= x + 1 && y - 1 <= ty <= y && InGrid(tx, ty) && g[tx][ty] == Empty &&
      r == Move(g, x, y, tx, ty, Smoke, Empty)
  }

  /** Smoke stepping into an empty neighbouring cell is a smoke move. */
  lemma MovedInto(g: Grid, x: int, y: int, tx: int, ty: int)
    requires IsGrid(g) && InGrid(x, y) && InGrid(tx, ty) && g[tx][ty] == Empty
    requires x - 1 <= tx <= x + 1 && y - 1 <= ty <= y
    ensures SmokeMoved(g, x, y, Move(g, x, y, tx, ty, Smoke, Empty))
  {
  }

  /** The smoke rule changes at most the smoke cell and one empty cell it
      moves into, next to it: smoke either vanishes, moves by one step into
      empty space, or stays. */
  lemma SmokeMovesIntoEmptyNeighbour(g: Grid, x: int, y: int, rnd: Rng)
    requires IsGrid(g) && InGrid(x, y)
    ensures var r := SmokeRule(g, x, y, rnd);
      r == g || (g[x][y] == Smoke && (r == Put(g, x, y, Empty) || SmokeMoved(g, x, y, r)))
  {
    if g[x][y] == Smoke && Random(rnd, SmokeFade, x, y, 0, 100) >= 2 {
      if y - 1 >= 0 && g[x][y - 1] == Empty {
        SmokeRiseMoves(g, x, y, rnd);
      } else {
        SmokeEscapeMoves(g, x, y, rnd);
      }
    }
  }

  lemma SmokeRiseMoves(g: Grid, x: int, y: int, rnd: Rng)
    requires IsGrid(g) && InGrid(x, y) && y - 1 >= 0 && g[x][y - 1] == Empty
    ensures SmokeMoved(g, x, y, SmokeRiseRule(g, x, y, rnd))
  {
    var r := SmokeRiseRule(g, x, y, rnd);
    var nx := x + (if Random(rnd, SmokeDriftSide, x, y, 0, 1) != 0 then -1 else 1);
    if Random(rnd, SmokeDrift, x, y, 0, 10) < 3 && 0 <= nx < CELLS_X && g[nx][y - 1] == Empty {
      assert r == Move(g, x, y, nx, y - 1, Smoke, Empty);
      MovedInto(g, x, y, nx, y - 1);
    } else {
      assert r == Move(g, x, y, x, y - 1, Smoke, Empty);
      MovedInto(g, x, y, x, y - 1);
    }
  }

  lemma SmokeEscapeMoves(g: Grid, x: int, y: int, rnd: Rng)
    requires IsGrid(g) && InGrid(x, y)
    ensures var r := SmokeEscapeRule(g, x, y, rnd);
      r == g || SmokeMoved(g, x, y, r)
  {
    if |OpenDirs(g, x, y, DIRECTIONS)| > 0 {
      var tx, ty := EscapeThroughOpen(g, x, y, rnd);
      MovedInto(g, x, y, tx, ty);
    } else {
      assert SmokeEscapeRule(g, x, y, rnd) == g;
    }
  }

  /** With an open direction, blocked smoke steps into the empty
      neighbouring cell (tx, ty) that direction leads to. */
  lemma EscapeThroughOpen(g: Grid, x: int, y: int, rnd: Rng) returns (tx: int, ty: int)
    requires IsGrid(g) && InGrid(x, y) && |OpenDirs(g, x, y, DIRECTIONS)| > 0
    ensures x - 1 <= tx <= x + 1 && y - 1 <= ty <= y && InGrid(tx, ty) && g[tx][ty] == Empty
    ensures SmokeEscapeRule(g, x, y, rnd) == Move(g, x, y, tx, ty, Smoke, Empty)
  {
    var c := EscapeDir(g, x, y, rnd);
    tx, ty := x + DirX(c), y + DirY(c);
    EscapeTakes(g, x, y, rnd, c);
  }

  /** With an open direction, the escape rule is the move through the
      picked one. */
  lemma EscapeTakes(g: Grid, x: int, y: int, rnd: Rng, c: int)
    requires IsGrid(g) && InGrid(x, y) && |OpenDirs(g, x, y, DIRECTIONS)| > 0
    requires c == EscapeDir(g, x, y, rnd)
    ensures SmokeEscapeRule(g, x, y, rnd) == EscapeMove(g, x, y, c)
  {
  }

  // ---------------------------------------------------------------------------
  // What a whole sweep preserves

  /** The relations between the grid before and after a sweep. */
  datatype Relation =
    | StoneStays      // a cell is stone after exactly when it was stone before
    | OnlyExtinguish  // a cell either keeps its value or goes from fire to smoke
    | OnlyIgnite      // a cell either keeps its value or goes from sand or stone to fire

  predicate CellRelated(rel: Relation, a: Cell, b: Cell) {
    match rel
    case StoneStays => (a == Stone <==> b == Stone)
    case OnlyExtinguish => b == a || (a == Fire && b == Smoke)
    case OnlyIgnite => b == a || ((a == Sand || a == Stone) && b == Fire)
  }

  ghost predicate Related(rel: Relation, g: Grid, r: Grid)
    requires IsGrid(g) && IsGrid(r)
  {
    forall i, j :: InGrid(i, j) ==> CellRelated(rel, g[i][j], r[i][j])
  }

  /** The relation each sweep keeps. */
  function Keeps(pass: Pass): Relation {
    match pass
    case SandWaterPass => StoneStays
    case SmokePass => StoneStays
    case FirePass => OnlyExtinguish
    case SpreadPass => OnlyIgnite
  }

  lemma RelatedReflexive(rel: Relation, g: Grid)
    requires IsGrid(g)
    ensures Related(rel, g, g)
  {
    forall i, j | InGrid(i, j)
      ensures CellRelated(rel, g[i][j], g[i][j])
    {
    }
  }

  lemma RelatedTransitive(rel: Relation, a: Grid, b: Grid, c: Grid)
    requires IsGrid(a) && IsGrid(b) && IsGrid(c)
    requires Related(rel, a, b) && Related(rel, b, c)
    ensures Related(rel, a, c)
  {
    forall i, j | InGrid(i, j)
      ensures CellRelated(rel, a[i][j], c[i][j])
    {
      assert CellRelated(rel, a[i][j], b[i][j]) && CellRelated(rel, b[i][j], c[i][j]);
    }
  }

  /** Every cell update keeps its sweep's relation: sand, water and smoke
      never move into or out of stone, fire only dies to smoke in the fire
      sweep, and only sand and stone catch fire in the spread sweep. */
  lemma CellKeeps(pass: Pass, g: Grid, x: int, y: int, rnd: Rng)
    requires IsGrid(g) && InGrid(x, y)
    ensures Related(Keeps(pass), g, CellRule(pass, g, x, y, rnd))
  {
    match pass
    case SandWaterPass =>
      var s := SandRule(g, x, y, rnd);
      SandRuleSwaps(g, x, y, rnd);
      assert Related(StoneStays, g, s);
      WaterKeepsStone(s, x, y, rnd);
      RelatedTransitive(StoneStays, g, s, WaterRule(s, x, y, rnd));
    case SmokePass =>
      SmokeMovesIntoEmptyNeighbour(g, x, y, rnd);
    case FirePass =>
    case SpreadPass =>
      SpreadIgnitesOnlyNextToFire(g, x, y, rnd);
  }

  /** Water writes only empty cells and cells it quenches or leaves, never
      stone. */
  lemma WaterKeepsStone(g: Grid, x: int, y: int, rnd: Rng)
    requires IsGrid(g) && InGrid(x, y)
    ensures Related(StoneStays, g, WaterRule(g, x, y, rnd))
  {
    if g[x][y] == Water && !(y + 1 < CELLS_Y && (g[x][y + 1] == Fire || g[x][y + 1] == Empty)) {
      var left := x - 1 >= 0 && y + 1 < CELLS_Y && g[x - 1][y + 1] == Empty;
      var right := x + 1 < CELLS_X && y + 1 < CELLS_Y && g[x + 1][y + 1] == Empty;
      if left || right {
        SpillIntoEmpty(g, x, y, y + 1, left, right, Water, WaterSide, rnd);
      } else {
        var leftH := x - 1 >= 0 && g[x - 1][y] == Empty;
        var rightH := x + 1 < CELLS_X && g[x + 1][y] == Empty;
        SpillIntoEmpty(g, x, y, y, leftH, rightH, Water, WaterLevel, rnd);
      }
    }
  }

  /** A spill of a non-stone particle out of a non-stone cell into empty
      cells keeps every stone cell where it is. */
  lemma SpillIntoEmpty(g: Grid, x: int, y: int, ty: int, left: bool, right: bool,
                       particle: Cell, site: Site, rnd: Rng)
    requires IsGrid(g) && InGrid(x, y) && 0 <= ty < CELLS_Y
    requires left ==> x - 1 >= 0 && g[x - 1][ty] == Empty
    requires right ==> x + 1 < CELLS_X && g[x + 1][ty] == Empty
    requires particle != Stone && g[x][y] != Stone
    ensures Related(StoneStays, g, Spill(g, x, y, ty, left, right, particle, site, rnd))
  {
  }

  /** A sweep over the first n cells of a row keeps the sweep's relation. */
  lemma {:induction false} RowSweepKeeps(pass: Pass, g: Grid, y: int, n: nat, rnd: Rng)
    requires IsGrid(g) && 0 <= y < CELLS_Y && n <= CELLS_X
    ensures Related(Keeps(pass), g, RowSweep(pass, g, y, n, rnd))
  {
    if n > 0 {
      var m := RowSweep(pass, g, y, n - 1, rnd);
      var r := CellRule(pass, m, n - 1, y, rnd);
      assert RowSweep(pass, g, y, n, rnd) == r;
      RowSweepKeeps(pass, g, y, n - 1, rnd);
      CellKeeps(pass, m, n - 1, y, rnd);
      RelatedTransitive(Keeps(pass), g, m, r);
    } else {
      RelatedReflexive(Keeps(pass), g);
    }
  }

  /** The first m rows of a sweep keep the sweep's relation. */
  lemma {:induction false} RowsKeep(pass: Pass, g: Grid, m: nat, rnd: Rng)
    requires IsGrid(g) && m <= CELLS_Y
    ensures Related(Keeps(pass), g, Rows(pass, g, m, rnd))
  {
    if m > 0 {
      var a := Rows(pass, g, m - 1, rnd);
      RowsKeep(pass, g, m - 1, rnd);
      RowSweepKeeps(pass, a, RowAt(pass, m - 1), CELLS_X, rnd);
      RelatedTransitive(Keeps(pass), g, a, Rows(pass, g, m, rnd));
    } else {
      RowSweepKeeps(pass, g, 0, 0, rnd);
    }
  }

  /** Over a whole physics step stone never moves and is never created: a
      cell is stone afterwards only if it was stone before, and a stone
      cell is afterwards stone or fire. */
  lemma StepKeepsStone(g: Grid, rnd: Rng)
    requires IsGrid(g)
    ensures var r := Step(g, rnd);
      forall i, j :: InGrid(i, j) ==>
        (r[i][j] == Stone ==> g[i][j] == Stone) &&
        (g[i][j] == Stone ==> r[i][j] == Stone || r[i][j] == Fire)
  {
    var g1 := Rows(SandWaterPass, g, CELLS_Y, rnd);
    var g2 := Rows(SmokePass, g1, CELLS_Y, rnd);
    var g3 := Rows(FirePass, g2, CELLS_Y, rnd);
    var r := Rows(SpreadPass, g3, CELLS_Y, rnd);
    RowsKeep(SandWaterPass, g, CELLS_Y, rnd);
    RowsKeep(SmokePass, g1, CELLS_Y, rnd);
    RowsKeep(FirePass, g2, CELLS_Y, rnd);
    RowsKeep(SpreadPass, g3, CELLS_Y, rnd);
    forall i, j | InGrid(i, j)
      ensures (r[i][j] == Stone ==> g[i][j] == Stone) && (g[i][j] == Stone ==> r[i][j] == Stone || r[i][j] == Fire)
    {
      assert CellRelated(StoneStays, g[i][j], g1[i][j]);
      assert CellRelated(StoneStays, g1[i][j], g2[i][j]);
      assert CellRelated(OnlyExtinguish, g2[i][j], g3[i][j]);
      assert CellRelated(OnlyIgnite, g3[i][j], r[i][j]);
    }
  }

  // ---------------------------------------------------------------------------
  // The sweeps in place on the cell array

  /** The array as a grid value. */
  function Snapshot(cells: array2<Cell>): (g: Grid)
    reads cells
    requires cells.Length0 == CELLS_X && cells.Length1 == CELLS_Y
    ensures IsGrid(g)
  {
    seq(CELLS_X, i reads cells requires 0 <= i < CELLS_X =>
      seq(CELLS_Y, j reads cells requires 0 <= j < CELLS_Y => cells[i, j]))
  }

  /** The snapshot holds the array's cells. */
  lemma SnapshotCells(cells: array2<Cell>)
    requires cells.Length0 == CELLS_X && cells.Length1 == CELLS_Y
    ensures forall i, j :: InGrid(i, j) ==> Snapshot(cells)[i][j] == cells[i, j]
  {
  }

  /** cells[x][y] = v. */
  method Set(cells: array2<Cell>, x: int, y: int, v: Cell)
    requires cells.Length0 == CELLS_X && cells.Length1 == CELLS_Y && InGrid(x, y)
    modifies cells
    ensures Snapshot(cells) == Put(old(Snapshot(cells)), x, y, v)
  {
    ghost var g := Snapshot(cells);
    SnapshotCells(cells);
    cells[x, y] := v;
    SnapshotCells(cells);
    GridExtensionality(Snapshot(cells), Put(g, x, y, v));
  }

  /** A particle moving: cells[tx][ty] = particle, then cells[x][y] = left. */
  method MoveStep(cells: array2<Cell>, x: int, y: int, tx: int, ty: int, particle: Cell, left: Cell)
    requires cells.Length0 == CELLS_X && cells.Length1 == CELLS_Y && InGrid(x, y) && InGrid(tx, ty)
    modifies cells
    ensures Snapshot(cells) == Move(old(Snapshot(cells)), x, y, tx, ty, particle, left)
  {
    Set(cells, tx, ty, particle);
    Set(cells, x, y, left);
  }

  method SpillStep(cells: array2<Cell>, x: int, y: int, ty: int, left: bool, right: bool,
                   particle: Cell, site: Site, rnd: Rng)
    requires cells.Length0 == CELLS_X && cells.Length1 == CELLS_Y && InGrid(x, y) && 0 <= ty < CELLS_Y
    requires left ==> x - 1 >= 0
    requires right ==> x + 1 < CELLS_X
    modifies cells
    ensures Snapshot(cells) == Spill(old(Snapshot(cells)), x, y, ty, left, right, particle, site, rnd)
  {
    if left && right {
      var direction := if Random(rnd, site, x, y, 0, 1) == 0 then -1 else 1;
      MoveStep(cells, x, y, x + direction, ty, particle, Empty);
    } else if left {
      MoveStep(cells, x, y, x - 1, ty, particle, Empty);
    } else if right {
      MoveStep(cells, x, y, x + 1, ty, particle, Empty);
    }
  }

  method SandStep(cells: array2<Cell>, x: int, y: int, rnd: Rng)
    requires cells.Length0 == CELLS_X && cells.Length1 == CELLS_Y && InGrid(x, y)
    modifies cells
    ensures Snapshot(cells) == SandRule(old(Snapshot(cells)), x, y, rnd)
  {
    SnapshotCells(cells);
    if cells[x, y] == Sand {
      if y + 1 < CELLS_Y {
        if cells[x, y + 1] == Empty {
          MoveStep(cells, x, y, x, y + 1, Sand, Empty);
        } else if cells[x, y + 1] == Water {
          MoveStep(cells, x, y, x, y + 1, Sand, Water);
        } else if cells[x, y + 1] != Stone && cells[x, y + 1] != Fire {
          var left := x - 1 >= 0 && cells[x - 1, y + 1] == Empty;
          var right := x + 1 < CELLS_X && cells[x + 1, y + 1] == Empty;
          SpillStep(cells, x, y, y + 1, left, right, Sand, SandSide, rnd);
        }
      }
    }
  }

  method WaterStep(cells: array2<Cell>, x: int, y: int, rnd: Rng)
    requires cells.Length0 == CELLS_X && cells.Length1 == CELLS_Y && InGrid(x, y)
    modifies cells
    ensures Snapshot(cells) == WaterRule(old(Snapshot(cells)), x, y, rnd)
  {
    SnapshotCells(cells);
    if cells[x, y] == Water {
      if y + 1 < CELLS_Y && cells[x, y + 1] == Fire {
        Set(cells, x, y + 1, Empty);
        Set(cells, x, y, Empty);
      } else if y + 1 < CELLS_Y && cells[x, y + 1] == Empty {
        MoveStep(cells, x, y, x, y + 1, Water, Empty);
      } else {
        var left := x - 1 >= 0 && y + 1 < CELLS_Y && cells[x - 1, y + 1] == Empty;
        var right := x + 1 < CELLS_X && y + 1 < CELLS_Y && cells[x + 1, y + 1] == Empty;
        if left || right {
          SpillStep(cells, x, y, y + 1, left, right, Water, WaterSide, rnd);
        } else {
          var leftH := x - 1 >= 0 && cells[x - 1, y] == Empty;
          var rightH := x + 1 < CELLS_X && cells[x + 1, y] == Empty;
          SpillStep(cells, x, y, y, leftH, rightH, Water, WaterLevel, rnd);
        }
      }
    }
  }

  /** The smoke escape search: the open directions collected into a
      four-slot buffer, in order. */
  method CollectOpen(cells: array2<Cell>, x: int, y: int) returns (valid: array<int>, count: int)
    requires cells.Length0 == CELLS_X && cells.Length1 == CELLS_Y
    ensures valid.Length == DIRECTIONS && 0 <= count <= DIRECTIONS
    ensures valid[..count] == OpenDirs(Snapshot(cells), x, y, DIRECTIONS)
  {
    ghost var g := Snapshot(cells);
    valid := new int[DIRECTIONS](_ => 0);
    count := 0;
    var i := 0;
    while i < DIRECTIONS
      invariant 0 <= i <= DIRECTIONS && 0 <= count <= i
      invariant valid[..count] == OpenDirs(g, x, y, i)
    {
      var open := IsOpen(cells, x, y, i);
      assert OpenDirs(g, x, y, i + 1) == OpenDirs(g, x, y, i) + (if open then [i] else []);
      if open {
        valid[count] := i;
        assert valid[..count + 1] == valid[..count] + [i];
        count := count + 1;
      }
      i := i + 1;
    }
  }

  /** Whether direction i from (x, y) leads to an empty cell inside the
      grid, read from the array. */
  method IsOpen(cells: array2<Cell>, x: int, y: int, i: int) returns (open: bool)
    requires cells.Length0 == CELLS_X && cells.Length1 == CELLS_Y
    ensures open == OpenDir(Snapshot(cells), x, y, i)
  {
    SnapshotCells(cells);
    var nx, ny := x + DirX(i), y + DirY(i);
    open := nx >= 0 && nx < CELLS_X && ny >= 0 && ny < CELLS_Y && cells[nx, ny] == Empty;
  }

  method SmokeStep(cells: array2<Cell>, x: int, y: int, rnd: Rng)
    requires cells.Length0 == CELLS_X && cells.Length1 == CELLS_Y && InGrid(x, y)
    modifies cells
    ensures Snapshot(cells) == SmokeRule(old(Snapshot(cells)), x, y, rnd)
  {
    SnapshotCells(cells);
    if cells[x, y] == Smoke {
      if Random(rnd, SmokeFade, x, y, 0, 100) < 2 {
        Set(cells, x, y, Empty);
        return;
      }
      if y - 1 >= 0 && cells[x, y - 1] == Empty {
        SmokeRise(cells, x, y, rnd);
      } else {
        SmokeEscape(cells, x, y, rnd);
      }
    }
  }

  /** Smoke with empty space above rises, drifting diagonally when the
      drift draw says so and that cell is free. */
  method SmokeRise(cells: array2<Cell>, x: int, y: int, rnd: Rng)
    requires cells.Length0 == CELLS_X && cells.Length1 == CELLS_Y && InGrid(x, y) && y - 1 >= 0
    modifies cells
    ensures Snapshot(cells) == SmokeRiseRule(old(Snapshot(cells)), x, y, rnd)
  {
    SnapshotCells(cells);
    var drifted := false;
    if Random(rnd, SmokeDrift, x, y, 0, 10) < 3 {
      var driftDir := if Random(rnd, SmokeDriftSide, x, y, 0, 1) != 0 then -1 else 1;
      var newX := x + driftDir;
      if newX >= 0 && newX < CELLS_X && cells[newX, y - 1] == Empty {
        MoveStep(cells, x, y, newX, y - 1, Smoke, Empty);
        drifted := true;
      }
    }
    if !drifted {
      MoveStep(cells, x, y, x, y - 1, Smoke, Empty);
    }
  }

  /** Smoke with no room above escapes through a random open direction. */
  method SmokeEscape(cells: array2<Cell>, x: int, y: int, rnd: Rng)
    requires cells.Length0 == CELLS_X && cells.Length1 == CELLS_Y && InGrid(x, y)
    modifies cells
    ensures Snapshot(cells) == SmokeEscapeRule(old(Snapshot(cells)), x, y, rnd)
  {
    ghost var g := Snapshot(cells);
    var valid, count := CollectOpen(cells, x, y);
    if count > 0 {
      var choice := valid[Random(rnd, SmokePick, x, y, 0, count - 1)];
      assert choice == valid[..count][Random(rnd, SmokePick, x, y, 0, count - 1)];
      EscapeStep(cells, x, y, rnd, choice);
    } else {
      assert |OpenDirs(g, x, y, DIRECTIONS)| == 0;
    }
  }

  /** The move through the picked open direction. */
  method EscapeStep(cells: array2<Cell>, x: int, y: int, rnd: Rng, choice: int)
    requires cells.Length0 == CELLS_X && cells.Length1 == CELLS_Y && InGrid(x, y)
    requires |OpenDirs(Snapshot(cells), x, y, DIRECTIONS)| > 0
    requires choice == EscapeDir(Snapshot(cells), x, y, rnd)
    modifies cells
    ensures Snapshot(cells) == SmokeEscapeRule(old(Snapshot(cells)), x, y, rnd)
  {
    EscapeTakes(Snapshot(cells), x, y, rnd, choice);
    MoveStep(cells, x, y, x + DirX(choice), y + DirY(choice), Smoke, Empty);
  }

  method FireStep(cells: array2<Cell>, x: int, y: int, rnd: Rng)
    requires cells.Length0 == CELLS_X && cells.Length1 == CELLS_Y && InGrid(x, y)
    modifies cells
    ensures Snapshot(cells) == FireRule(old(Snapshot(cells)), x, y, rnd)
  {
    SnapshotCells(cells);
    if cells[x, y] == Fire {
      var hasSolidBelow := false;
      if y == CELLS_Y - 1 {
        hasSolidBelow := true;
      } else if y + 1 < CELLS_Y {
        var below := cells[x, y + 1];
        if below == Sand || below == Stone {
          hasSolidBelow := true;
        }
      }
      if !hasSolidBelow {
        Set(cells, x, y, Smoke);
        return;
      }
      if Random(rnd, FireFade, x, y, 0, 40) == 0 {
        Set(cells, x, y, Smoke);
      }
    }
  }

  /** The neighbour scan of the spread sweep: rows dy = -1..1, and in each
      row dx = -1..1, skipping the cell itself and stopping at the first
      fire. */
  method ScanForFire(cells: array2<Cell>, x: int, y: int) returns (nearFire: bool)
    requires cells.Length0 == CELLS_X && cells.Length1 == CELLS_Y
    ensures nearFire == NearFire(Snapshot(cells), x, y)
  {
    SnapshotCells(cells);
    ghost var g := Snapshot(cells);
    nearFire := false;
    var dy := -1;
    while dy <= 1 && !nearFire
      invariant -1 <= dy <= 2
      invariant nearFire <==> exists dx, ey :: -1 <= dx <= 1 && -1 <= ey < dy && FireNeighbour(g, x, y, dx, ey)
    {
      var dx := -1;
      while dx <= 1
        invariant -1 <= dx <= 2
        invariant !nearFire
        invariant forall ex, ey :: -1 <= ex <= 1 && -1 <= ey < dy ==> !FireNeighbour(g, x, y, ex, ey)
        invariant forall ex :: -1 <= ex < dx ==> !FireNeighbour(g, x, y, ex, dy)
      {
        if dx == 0 && dy == 0 {
          dx := dx + 1;
          continue;
        }
        var nx, ny := x + dx, y + dy;
        if nx >= 0 && nx < CELLS_X && ny >= 0 && ny < CELLS_Y {
          if cells[nx, ny] == Fire {
            assert FireNeighbour(g, x, y, dx, dy);
            nearFire := true;
            break;
          }
        }
        dx := dx + 1;
      }
      dy := dy + 1;
    }
  }

  method SpreadStep(cells: array2<Cell>, x: int, y: int, rnd: Rng)
    requires cells.Length0 == CELLS_X && cells.Length1 == CELLS_Y && InGrid(x, y)
    modifies cells
    ensures Snapshot(cells) == SpreadRule(old(Snapshot(cells)), x, y, rnd)
  {
    SnapshotCells(cells);
    var current := cells[x, y];
    if current == Sand || current == Stone {
      var nearFire := ScanForFire(cells, x, y);
      if nearFire && current != Fire {
        var prob := if current == Sand then 8 else 15;
        if Random(rnd, Ignite, x, y, 0, prob) == 0 {
          Set(cells, x, y, Fire);
        }
      }
    }
  }

  /** One cell of a sweep. */
  method UpdateCell(cells: array2<Cell>, pass: Pass, x: int, y: int, rnd: Rng)
    requires cells.Length0 == CELLS_X && cells.Length1 == CELLS_Y && InGrid(x, y)
    modifies cells
    ensures Snapshot(cells) == CellRule(pass, old(Snapshot(cells)), x, y, rnd)
  {
    match pass
    case SandWaterPass =>
      SandStep(cells, x, y, rnd);
      WaterStep(cells, x, y, rnd);
    case SmokePass => SmokeStep(cells, x, y, rnd);
    case FirePass => FireStep(cells, x, y, rnd);
    case SpreadPass => SpreadStep(cells, x, y, rnd);
  }

  /** One row of a sweep, left to right. */
  method SweepRow(cells: array2<Cell>, pass: Pass, y: int, rnd: Rng)
    requires cells.Length0 == CELLS_X && cells.Length1 == CELLS_Y && 0 <= y < CELLS_Y
    modifies cells
    ensures Snapshot(cells) == RowSweep(pass, old(Snapshot(cells)), y, CELLS_X, rnd)
  {
    ghost var g0 := Snapshot(cells);
    var x := 0;
    while x < CELLS_X
      invariant 0 <= x <= CELLS_X
      invariant Snapshot(cells) == RowSweep(pass, g0, y, x, rnd)
    {
      UpdateCell(cells, pass, x, y, rnd);
      x := x + 1;
    }
  }

  /** One sweep over the whole grid, row by row in the sweep's order. */
  method RunPass(cells: array2<Cell>, pass: Pass, rnd: Rng)
    requires cells.Length0 == CELLS_X && cells.Length1 == CELLS_Y
    modifies cells
    ensures Snapshot(cells) == Rows(pass, old(Snapshot(cells)), CELLS_Y, rnd)
  {
    ghost var g0 := Snapshot(cells);
    var k := 0;
    while k < CELLS_Y
      invariant 0 <= k <= CELLS_Y
      invariant Snapshot(cells) == Rows(pass, g0, k, rnd)
    {
      SweepRow(cells, pass, RowAt(pass, k), rnd);
      k := k + 1;
    }
  }

  /** One physics step on the cell array. */
  method PhysicsStep(cells: array2<Cell>, rnd: Rng)
    requires cells.Length0 == CELLS_X && cells.Length1 == CELLS_Y
    modifies cells
    ensures Snapshot(cells) == Step(old(Snapshot(cells)), rnd)
  {
    RunPass(cells, SandWaterPass, rnd);
    RunPass(cells, SmokePass, rnd);
    RunPass(cells, FirePass, rnd);
    RunPass(cells, SpreadPass, rnd);
  }
}
