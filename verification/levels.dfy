/**
 * `World.process_data` (which tile codes become which objects) and the empty
 * grid of `reset_level`. Images are not loaded: every placed tile occupies
 * its grid square, and spawns are kept as the grid cell they come from.
 */
module Levels {
  import opened Prelude
  import opened Geometry
  import opened Entities

  /** What a tile code in 0..20 places in the level. */
  datatype TileKind =
    | Obstacle | Water | Decoration | PlayerSpawn | EnemySpawn
    | AmmoSpawn | GrenadeSpawn | HealthSpawn | ExitTile

  /** A code below 0 places nothing; a code with no tile image cannot be placed. */
  datatype TileClass = Blank | Placed(kind: TileKind) | NoImage

  /** The code ranges of `process_data`. */
  function Classify(code: int): (c: TileClass)
    ensures c == Blank <==> code < 0
    ensures c == NoImage <==> code >= TILE_TYPES
    ensures c == Placed(Obstacle) <==> 0 <= code <= 8
    ensures c == Placed(Water) <==> 9 <= code <= 10
    ensures c == Placed(Decoration) <==> 11 <= code <= 14
    ensures c == Placed(PlayerSpawn) <==> code == 15
    ensures c == Placed(EnemySpawn) <==> code == 16
    ensures c == Placed(AmmoSpawn) <==> code == 17
    ensures c == Placed(GrenadeSpawn) <==> code == 18
    ensures c == Placed(HealthSpawn) <==> code == 19
    ensures c == Placed(ExitTile) <==> code == 20
  {
    if code < 0 then Blank
    else if code >= TILE_TYPES then NoImage
    else if code <= 8 then Placed(Obstacle)
    else if code <= 10 then Placed(Water)
    else if code <= 14 then Placed(Decoration)
    else if code == 15 then Placed(PlayerSpawn)
    else if code == 16 then Placed(EnemySpawn)
    else if code == 17 then Placed(AmmoSpawn)
    else if code == 18 then Placed(GrenadeSpawn)
    else if code == 19 then Placed(HealthSpawn)
    else Placed(ExitTile)
  }

  /** One entry of the level grid. */
  datatype Cell = Cell(col: int, row: int, code: int)

  /** A soldier spawn, or an item box spawn, by grid cell. */
  datatype Spawn = Spawn(col: int, row: int)
  datatype BoxSpawn = BoxSpawn(kind: ItemKind, col: int, row: int)

  /** What `process_data` builds. */
  datatype World = World(
    obstacles: seq<Rect>,
    water: seq<Rect>,
    decorations: seq<Rect>,
    exits: seq<Rect>,
    enemies: seq<Spawn>,
    boxes: seq<BoxSpawn>,
    player: Option<Spawn>,
    levelLength: int)

  /** Why a grid cannot be turned into a level: no first row, a code without a tile image, or no player tile. */
  datatype LoadError = NoRows | UnknownTile(code: int) | NoPlayer

  /** Row `row` of the grid, from column `col` on. */
  function RowCells(row: int, codes: seq<int>, col: nat): seq<Cell>
    decreases |codes| - col
  {
    if col >= |codes| then [] else [Cell(col, row, codes[col])] + RowCells(row, codes, col + 1)
  }

  /** The grid from row `row` on, in the order `process_data` visits it. */
  function GridCells(grid: seq<seq<int>>, row: nat): seq<Cell>
    decreases |grid| - row
  {
    if row >= |grid| then [] else RowCells(row, grid[row], 0) + GridCells(grid, row + 1)
  }

  predicate InGrid(grid: seq<seq<int>>, c: Cell) {
    0 <= c.row < |grid| && 0 <= c.col < |grid[c.row]| && c.code == grid[c.row][c.col]
  }

  lemma {:induction false} RowCellsAre(row: int, codes: seq<int>, col: nat, c: Cell)
    ensures c in RowCells(row, codes, col) <==> c.row == row && col <= c.col < |codes| && c.code == codes[c.col]
    decreases |codes| - col
  {
    if col < |codes| {
      RowCellsAre(row, codes, col + 1, c);
    }
  }

  /** The visit order lists every cell of the grid, and nothing else. */
  lemma {:induction false} GridCellsAre(grid: seq<seq<int>>, row: nat, c: Cell)
    ensures c in GridCells(grid, row) <==> row <= c.row && InGrid(grid, c)
    decreases |grid| - row
  {
    if row < |grid| {
      RowCellsAre(row, grid[row], 0, c);
      GridCellsAre(grid, row + 1, c);
    }
  }

  /** Adds the object a tile of kind `k` places at cell `c`. */
  function Place(w: World, k: TileKind, c: Cell): World {
    var r := TileRect(c.col, c.row);
    match k
    case Obstacle => w.(obstacles := w.obstacles + [r])
    case Water => w.(water := w.water + [r])
    case Decoration => w.(decorations := w.decorations + [r])
    case PlayerSpawn => w.(player := Some(Spawn(c.col, c.row)))
    case EnemySpawn => w.(enemies := w.enemies + [Spawn(c.col, c.row)])
    case AmmoSpawn => w.(boxes := w.boxes + [BoxSpawn(AmmoItem, c.col, c.row)])
    case GrenadeSpawn => w.(boxes := w.boxes + [BoxSpawn(GrenadeItem, c.col, c.row)])
    case HealthSpawn => w.(boxes := w.boxes + [BoxSpawn(HealthItem, c.col, c.row)])
    case ExitTile => w.(exits := w.exits + [r])
  }

  /** The loop of `process_data` over the cells, stopping at the first code without an image. */
  function Build(w: World, cells: seq<Cell>): (r: Result<World, LoadError>)
    ensures r.Failure? ==> r.error.UnknownTile? && r.error.code >= TILE_TYPES
    ensures r.Success? ==> r.value.levelLength == w.levelLength
    decreases |cells|
  {
    if |cells| == 0 then Success(w)
    else match Classify(cells[0].code)
      case NoImage => Failure(UnknownTile(cells[0].code))
      case Blank => Build(w, cells[1..])
      case Placed(k) => Build(Place(w, k, cells[0]), cells[1..])
  }

  /** `process_data`: the level length is the width of the first row; a level needs a player tile. */
  function ProcessData(grid: seq<seq<int>>): (r: Result<World, LoadError>)
    ensures r == Failure(NoRows) <==> |grid| == 0
    ensures r.Failure? && r.error.UnknownTile? ==> r.error.code >= TILE_TYPES
    ensures r.Success? ==> r.value.player.Some? && r.value.levelLength == |grid[0]|
  {
    if |grid| == 0 then Failure(NoRows)
    else match Build(World([], [], [], [], [], [], None, |grid[0]|), GridCells(grid, 0))
      case Failure(e) => Failure(e)
      case Success(w) => if w.player.None? then Failure(NoPlayer) else Success(w)
  }

  predicate AllKnown(cells: seq<Cell>) {
    forall k :: 0 <= k < |cells| ==> cells[k].code < TILE_TYPES
  }

  /** The kinds placed as squares of the level: obstacles, water, decorations and exits. */
  predicate IsSquareKind(k: TileKind) {
    k == Obstacle || k == Water || k == Decoration || k == ExitTile
  }

  /** The squares of kind `k` a world holds. */
  function Squares(w: World, k: TileKind): seq<Rect> {
    match k
    case Obstacle => w.obstacles
    case Water => w.water
    case Decoration => w.decorations
    case ExitTile => w.exits
    case _ => []
  }

  /** Cell `c` places a square of kind `k`, and `r` is that square. */
  predicate SquareAt(c: Cell, k: TileKind, r: Rect) {
    Classify(c.code) == Placed(k) && r == TileRect(c.col, c.row)
  }

  /** The tile code that spawns a box of each kind. */
  function BoxCode(kind: ItemKind): int {
    match kind
    case AmmoItem => 17
    case GrenadeItem => 18
    case HealthItem => 19
  }

  /** A player tile at index `k` and none after it: the player `process_data` keeps. */
  predicate LastPlayerAt(cells: seq<Cell>, k: int, s: Spawn) {
    0 <= k < |cells| && cells[k] == Cell(s.col, s.row, 15) && forall j :: k < j < |cells| ==> cells[j].code != 15
  }

  /**
   * The loop succeeds exactly when every code has an image; it then adds a
   * square of each kind for every code of that kind, an enemy for every
   * enemy code and a box for every box code, and keeps the player of the
   * last player tile.
   */
  lemma BuildFacts(w: World, cells: seq<Cell>)
    ensures Build(w, cells).Success? <==> AllKnown(cells)
    ensures Build(w, cells).Success? ==>
              var w' := Build(w, cells).value;
              && w'.levelLength == w.levelLength
              && (forall k, r :: IsSquareKind(k) ==>
                    (r in Squares(w', k) <==> r in Squares(w, k) || exists c :: c in cells && SquareAt(c, k, r)))
              && (forall s :: s in w'.enemies <==> s in w.enemies || Cell(s.col, s.row, 16) in cells)
              && (forall b :: b in w'.boxes <==> b in w.boxes || Cell(b.col, b.row, BoxCode(b.kind)) in cells)
              && ((forall c :: c in cells ==> c.code != 15) ==> w'.player == w.player)
              && ((exists c :: c in cells && c.code == 15) ==>
                    w'.player.Some? && exists k :: LastPlayerAt(cells, k, w'.player.value))
  {
    BuildSucceeds(w, cells);
    BuildSpawns(w, cells);
    BuildPlayer(w, cells);
    forall k, r | IsSquareKind(k)
      ensures Build(w, cells).Success? ==>
                (r in Squares(Build(w, cells).value, k) <==> r in Squares(w, k) || exists c :: c in cells && SquareAt(c, k, r))
    {
      BuildSquares(w, cells, k, r);
    }
  }

  lemma {:induction false} BuildSucceeds(w: World, cells: seq<Cell>)
    ensures Build(w, cells).Success? <==> AllKnown(cells)
    ensures Build(w, cells).Success? ==> Build(w, cells).value.levelLength == w.levelLength
    decreases |cells|
  {
    if |cells| > 0 {
      ShiftKnown(cells);
      match Classify(cells[0].code)
      case NoImage =>
      case Blank => BuildSucceeds(w, cells[1..]);
      case Placed(kind) => BuildSucceeds(Place(w, kind, cells[0]), cells[1..]);
    }
  }

  /** Placing a tile adds its square to its own kind's list only. */
  lemma PlaceSquares(w: World, placed: TileKind, c: Cell, k: TileKind)
    requires IsSquareKind(k)
    ensures Squares(Place(w, placed, c), k) ==
              Squares(w, k) + (if placed == k then [TileRect(c.col, c.row)] else [])
  {
  }

  lemma {:induction false} BuildSquares(w: World, cells: seq<Cell>, k: TileKind, r: Rect)
    requires IsSquareKind(k)
    ensures Build(w, cells).Success? ==>
              (r in Squares(Build(w, cells).value, k) <==> r in Squares(w, k) || exists c :: c in cells && SquareAt(c, k, r))
    decreases |cells|
  {
    if |cells| > 0 {
      var tail := cells[1..];
      assert forall c :: c in cells <==> c == cells[0] || c in tail;
      match Classify(cells[0].code)
      case NoImage =>
      case Blank => BuildSquares(w, tail, k, r);
      case Placed(kind) =>
        PlaceSquares(w, kind, cells[0], k);
        assert SquareAt(cells[0], k, r) <==> kind == k && r == TileRect(cells[0].col, cells[0].row);
        BuildSquares(Place(w, kind, cells[0]), tail, k, r);
    }
  }

  lemma {:induction false} BuildSpawns(w: World, cells: seq<Cell>)
    ensures Build(w, cells).Success? ==>
              && (forall s :: s in Build(w, cells).value.enemies <==> s in w.enemies || Cell(s.col, s.row, 16) in cells)
              && (forall b :: b in Build(w, cells).value.boxes <==>
                    b in w.boxes || Cell(b.col, b.row, BoxCode(b.kind)) in cells)
    decreases |cells|
  {
    if |cells| > 0 {
      var tail := cells[1..];
      assert forall c :: c in cells <==> c == cells[0] || c in tail;
      match Classify(cells[0].code)
      case NoImage =>
      case Blank => BuildSpawns(w, tail);
      case Placed(kind) => BuildSpawns(Place(w, kind, cells[0]), tail);
    }
  }

  lemma {:induction false} BuildPlayer(w: World, cells: seq<Cell>)
    ensures Build(w, cells).Success? ==>
              var p := Build(w, cells).value.player;
              && ((forall c :: c in cells ==> c.code != 15) ==> p == w.player)
              && ((exists c :: c in cells && c.code == 15) ==> p.Some? && exists k :: LastPlayerAt(cells, k, p.value))
    decreases |cells|
  {
    if |cells| > 0 {
      var tail := cells[1..];
      assert forall c :: c in cells <==> c == cells[0] || c in tail;
      var w1 := match Classify(cells[0].code) case Placed(kind) => Place(w, kind, cells[0]) case _ => w;
      BuildPlayer(w1, tail);
      if Classify(cells[0].code) != NoImage && Build(w, cells).Success? {
        assert Build(w, cells) == Build(w1, tail);
        var p := Build(w, cells).value.player;
        if exists c :: c in tail && c.code == 15 {
          var k :| LastPlayerAt(tail, k, p.value);
          assert LastPlayerAt(cells, k + 1, p.value);
        } else if cells[0].code == 15 {
          assert p == Some(Spawn(cells[0].col, cells[0].row));
          assert LastPlayerAt(cells, 0, p.value);
        }
      }
    }
  }

  /** Index bookkeeping between a sequence and its tail. */
  lemma ShiftKnown(cells: seq<Cell>)
    requires |cells| > 0
    ensures AllKnown(cells) <==> cells[0].code < TILE_TYPES && AllKnown(cells[1..])
  {
    var tail := cells[1..];
    assert forall k :: 0 <= k < |tail| ==> tail[k] == cells[k + 1];
  }

  /** `c` comes before `d` in the row-by-row, left-to-right visit order. */
  predicate Earlier(c: Cell, d: Cell) {
    c.row < d.row || (c.row == d.row && c.col < d.col)
  }

  lemma {:induction false} RowCellsAt(row: int, codes: seq<int>, col: nat)
    ensures |RowCells(row, codes, col)| == if col <= |codes| then |codes| - col else 0
    ensures forall i :: 0 <= i < |RowCells(row, codes, col)| ==>
              RowCells(row, codes, col)[i] == Cell(col + i, row, codes[col + i])
    decreases |codes| - col
  {
    if col < |codes| {
      RowCellsAt(row, codes, col + 1);
    }
  }

  /** The visit order is strictly increasing in (row, column). */
  lemma {:induction false} GridCellsOrdered(grid: seq<seq<int>>, row: nat)
    ensures forall i, j :: 0 <= i < j < |GridCells(grid, row)| ==> Earlier(GridCells(grid, row)[i], GridCells(grid, row)[j])
    decreases |grid| - row
  {
    if row < |grid| {
      var a := RowCells(row, grid[row], 0);
      var b := GridCells(grid, row + 1);
      RowCellsAt(row, grid[row], 0);
      GridCellsOrdered(grid, row + 1);
      forall j | 0 <= j < |b| ensures b[j].row > row {
        GridCellsAre(grid, row + 1, b[j]);
      }
      assert GridCells(grid, row) == a + b;
    }
  }

  /** Every code of the grid has a tile image. */
  predicate KnownCodes(grid: seq<seq<int>>) {
    forall row, col :: 0 <= row < |grid| && 0 <= col < |grid[row]| ==> grid[row][col] < TILE_TYPES
  }

  /** The grid holds `code` at (col, row). */
  predicate CodeAt(grid: seq<seq<int>>, col: int, row: int, code: int) {
    0 <= row < |grid| && 0 <= col < |grid[row]| && grid[row][col] == code
  }

  /** `r` is the square of some code of kind `k` in the grid. */
  ghost predicate KindSquare(grid: seq<seq<int>>, k: TileKind, r: Rect) {
    exists row, col :: 0 <= row < |grid| && 0 <= col < |grid[row]| && SquareAt(Cell(col, row, grid[row][col]), k, r)
  }

  ghost predicate HasPlayerTile(grid: seq<seq<int>>) {
    exists row, col :: CodeAt(grid, col, row, 15)
  }

  /** Membership form and grid form of the same facts about the visit order. */
  lemma CellsOfGrid(grid: seq<seq<int>>)
    ensures var cells := GridCells(grid, 0);
            && (AllKnown(cells) <==> KnownCodes(grid))
            && (forall k, r :: (exists c :: c in cells && SquareAt(c, k, r)) <==> KindSquare(grid, k, r))
            && (forall col, row, code :: Cell(col, row, code) in cells <==> CodeAt(grid, col, row, code))
            && ((exists c :: c in cells && c.code == 15) <==> HasPlayerTile(grid))
  {
    var cells := GridCells(grid, 0);
    forall c ensures c in cells <==> InGrid(grid, c) {
      GridCellsAre(grid, 0, c);
    }
    if !KnownCodes(grid) {
      var row, col :| 0 <= row < |grid| && 0 <= col < |grid[row]| && grid[row][col] >= TILE_TYPES;
      assert Cell(col, row, grid[row][col]) in cells;
    }
    if KnownCodes(grid) {
      forall k | 0 <= k < |cells| ensures cells[k].code < TILE_TYPES {
        assert cells[k] in cells;
      }
    }
    forall k, r | KindSquare(grid, k, r)
      ensures exists c :: c in cells && SquareAt(c, k, r)
    {
      var row, col :| 0 <= row < |grid| && 0 <= col < |grid[row]| && SquareAt(Cell(col, row, grid[row][col]), k, r);
      assert Cell(col, row, grid[row][col]) in cells;
    }
    forall k, r | exists c :: c in cells && SquareAt(c, k, r)
      ensures KindSquare(grid, k, r)
    {
      var c :| c in cells && SquareAt(c, k, r);
      assert InGrid(grid, c);
    }
    if HasPlayerTile(grid) {
      var row, col :| CodeAt(grid, col, row, 15);
      assert Cell(col, row, 15) in cells;
    }
  }

  /** The player tile kept by the loop is the last one of the grid in row-by-row order. */
  lemma LastPlayerOfGrid(grid: seq<seq<int>>, k: int, s: Spawn)
    requires LastPlayerAt(GridCells(grid, 0), k, s)
    ensures CodeAt(grid, s.col, s.row, 15)
    ensures forall row, col :: CodeAt(grid, col, row, 15) ==> row < s.row || (row == s.row && col <= s.col)
  {
    var cells := GridCells(grid, 0);
    GridCellsOrdered(grid, 0);
    GridCellsAre(grid, 0, cells[k]);
    forall row, col | CodeAt(grid, col, row, 15)
      ensures row < s.row || (row == s.row && col <= s.col)
    {
      GridCellsAre(grid, 0, Cell(col, row, 15));
      var j :| 0 <= j < |cells| && cells[j] == Cell(col, row, 15);
      if j < k {
        assert Earlier(cells[j], cells[k]);
      }
    }
  }

  /**
   * `process_data` as a whole: it fails exactly on an empty grid, an unknown
   * code, or a missing player tile; otherwise each kind's squares are the
   * squares of that kind's codes, the enemies stand on the enemy codes, each
   * box on its kind's code, the player on the last player code in row-by-row
   * order, and the level is as long as the first row.
   */
  lemma ProcessDataFacts(grid: seq<seq<int>>)
    ensures ProcessData(grid).Success? <==> |grid| > 0 && KnownCodes(grid) && HasPlayerTile(grid)
    ensures |grid| > 0 && KnownCodes(grid) && !HasPlayerTile(grid) ==> ProcessData(grid) == Failure(NoPlayer)
    ensures ProcessData(grid).Success? ==>
              var w := ProcessData(grid).value;
              && w.levelLength == |grid[0]|
              && (forall k, r :: IsSquareKind(k) ==> (r in Squares(w, k) <==> KindSquare(grid, k, r)))
              && (forall s :: s in w.enemies <==> CodeAt(grid, s.col, s.row, 16))
              && (forall b :: b in w.boxes <==> CodeAt(grid, b.col, b.row, BoxCode(b.kind)))
              && CodeAt(grid, w.player.value.col, w.player.value.row, 15)
              && (forall row, col :: CodeAt(grid, col, row, 15) ==>
                    row < w.player.value.row || (row == w.player.value.row && col <= w.player.value.col))
  {
    if |grid| > 0 {
      var w0 := World([], [], [], [], [], [], None, |grid[0]|);
      var cells := GridCells(grid, 0);
      BuildFacts(w0, cells);
      CellsOfGrid(grid);
      if ProcessData(grid).Success? {
        var w := ProcessData(grid).value;
        assert forall k :: Squares(w0, k) == [];
        var k :| LastPlayerAt(cells, k, w.player.value);
        LastPlayerOfGrid(grid, k, w.player.value);
      }
    }
  }

  /** `reset_level`: ROWS rows of COLS empty (-1) codes. */
  function ResetGrid(): (g: seq<seq<int>>)
    ensures |g| == ROWS
    ensures forall row :: 0 <= row < |g| ==> |g[row]| == COLS
    ensures forall row, col :: 0 <= row < |g| && 0 <= col < |g[row]| ==> g[row][col] == -1
  {
    seq(ROWS, _ => seq(COLS, _ => -1))
  }

  /** The cleared grid has no player tile, so loading it as a level fails. */
  lemma ResetGridIsNoLevel()
    ensures ProcessData(ResetGrid()) == Failure(NoPlayer)
  {
    var grid := ResetGrid();
    ProcessDataFacts(grid);
    var w0 := World([], [], [], [], [], [], None, |grid[0]|);
    BuildFacts(w0, GridCells(grid, 0));
    CellsOfGrid(grid);
  }
}
