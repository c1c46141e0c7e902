/** The level grid: tile codes, normalisation of the raw text rows into a
    rectangular, walled grid, and the translation of that grid into typed
    static geometry, gems, spawn points and exits. */
module LevelGrid {
  import opened Geometry

  /** The tile codes of the level text. Every character that is not one of
      the nine codes below (including '.') is an empty cell. */
  datatype Tile =
    | Empty | Solid | Water | Lava | GemRed | GemBlue
    | SpawnFire | SpawnWater | ExitRed | ExitBlue

  /** The character that stands for a tile in the level text. */
  function Code(t: Tile): char
  {
    match t
    case Empty => '.'
    case Solid => '#'
    case Water => '~'
    case Lava => '^'
    case GemRed => 'r'
    case GemBlue => 'b'
    case SpawnFire => 'F'
    case SpawnWater => 'W'
    case ExitRed => 'R'
    case ExitBlue => 'B'
  }

  /** Classification of one cell; unknown characters are empty. */
  function Classify(ch: char): Tile
  {
    match ch
    case '#' => Solid
    case '~' => Water
    case '^' => Lava
    case 'r' => GemRed
    case 'b' => GemBlue
    case 'F' => SpawnFire
    case 'W' => SpawnWater
    case 'R' => ExitRed
    case 'B' => ExitBlue
    case _ => Empty
  }

  /** A character is classified as a tile kind only when it is that kind's
      code; every other character is empty. */
  lemma ClassifySound(ch: char)
    ensures Classify(ch) != Empty ==> ch == Code(Classify(ch))
    ensures Code(Classify(ch)) != ch ==> Classify(ch) == Empty
  {
  }

  lemma ClassifyCode(t: Tile)
    ensures Classify(Code(t)) == t
  {
  }

  // ---------------------------------------------------------------------
  // Normalisation
  // ---------------------------------------------------------------------

  /** Length of the longest row (0 when there are no rows). */
  function LongestRow(rows: seq<string>): (n: nat)
    ensures forall i :: 0 <= i < |rows| ==> |rows[i]| <= n
    ensures |rows| > 0 ==> exists i :: 0 <= i < |rows| && |rows[i]| == n
    ensures |rows| == 0 ==> n == 0
  {
    if |rows| == 0 then 0
    else
      var m := LongestRow(rows[..|rows| - 1]);
      if |rows[|rows| - 1]| > m then |rows[|rows| - 1]| else m
  }

  /** The common width of the normalised grid: the longest row, at least MIN_COLS. */
  function Width(rows: seq<string>): (w: nat)
    ensures w >= MIN_COLS
    ensures forall i :: 0 <= i < |rows| ==> |rows[i]| <= w
    ensures w == MIN_COLS || exists i :: 0 <= i < |rows| && |rows[i]| == w
  {
    var n := LongestRow(rows);
    if n < MIN_COLS then MIN_COLS else n
  }

  function Dots(n: nat): string
  {
    seq(n, _ => Code(Empty))
  }

  function Wall(w: nat): string
  {
    seq(w, _ => Code(Solid))
  }

  /** A row right-padded with empty cells to width w. */
  function Padded(s: string, w: nat): string
  {
    if |s| < w then s + Dots(w - |s|) else s
  }

  /** A row whose first and last cells are forced solid. */
  function Walled(s: string): string
    requires |s| > 0
  {
    s[0 := Code(Solid)][|s| - 1 := Code(Solid)]
  }

  /** The grid the level is played on: every row padded to Width(rows) and
      walled left and right, and the first and last rows all solid. */
  function Normalized(rows: seq<string>): seq<string>
    requires |rows| > 0
  {
    var w := Width(rows);
    seq(|rows|, r requires 0 <= r < |rows| =>
      if r == 0 || r == |rows| - 1 then Wall(w) else Walled(Padded(rows[r], w)))
  }

  /** Rectangular and walled: all rows have the width, left and right
      columns are solid and so are the top and bottom rows. */
  lemma NormalizedShape(rows: seq<string>)
    requires |rows| > 0
    ensures var g, w := Normalized(rows), Width(rows);
      && |g| == |rows|
      && (forall r :: 0 <= r < |g| ==> |g[r]| == w && g[r][0] == '#' && g[r][w - 1] == '#')
      && (forall c :: 0 <= c < w ==> g[0][c] == '#' && g[|g| - 1][c] == '#')
  {
  }

  /** Normalisation keeps every interior cell of the raw text and fills the
      cells past the end of a short row with '.'. */
  lemma NormalizedInterior(rows: seq<string>, r: int, c: int)
    requires 0 < r < |rows| - 1 && 0 < c < Width(rows) - 1
    ensures Normalized(rows)[r][c] == if c < |rows[r]| then rows[r][c] else '.'
  {
  }

  /** The width computation of the normalisation pass. */
  method MaxCols(rows: seq<string>) returns (maxCols: nat)
    ensures maxCols == Width(rows)
  {
    maxCols := 0;
    for i := 0 to |rows|
      invariant maxCols == LongestRow(rows[..i])
    {
      assert rows[..i + 1][..i] == rows[..i];
      if |rows[i]| > maxCols {
        maxCols := |rows[i]|;
      }
    }
    assert rows[..|rows|] == rows;
    if maxCols < MIN_COLS {
      maxCols := MIN_COLS;
    }
  }

  /** Pads and walls the raw rows in place and returns the grid width. */
  method Normalize(level: array<string>) returns (maxCols: nat)
    requires level.Length > 0
    modifies level
    ensures maxCols == Width(old(level[..]))
    ensures level[..] == Normalized(old(level[..]))
  {
    ghost var raw := level[..];
    maxCols := MaxCols(level[..]);
    var rows := level.Length;
    for r := 0 to rows
      invariant forall k :: 0 <= k < r ==> level[k] == Walled(Padded(raw[k], maxCols))
      invariant forall k :: r <= k < rows ==> level[k] == raw[k]
    {
      if |level[r]| < maxCols {
        level[r] := level[r] + Dots(maxCols - |level[r]|);
      }
      level[r] := level[r][0 := Code(Solid)];
      level[r] := level[r][maxCols - 1 := Code(Solid)];
    }
    level[0] := Wall(maxCols);
    level[rows - 1] := Wall(maxCols);
  }

  // ---------------------------------------------------------------------
  // Parsing
  // ---------------------------------------------------------------------

  /** A grid position: row r is at world y = 32r, column c at x = 32c. */
  datatype Cell = Cell(row: nat, col: nat)

  predicate InGrid(grid: seq<string>, c: Cell)
  {
    c.row < |grid| && c.col < |grid[c.row]|
  }

  /** The character of a cell; cells outside the grid read as empty. */
  function CharAt(grid: seq<string>, c: Cell): char
  {
    if InGrid(grid, c) then grid[c.row][c.col] else Code(Empty)
  }

  /** The cell holds one of the tile codes ks. */
  predicate IsCode(grid: seq<string>, c: Cell, ks: set<Tile>)
  {
    InGrid(grid, c) && Classify(CharAt(grid, c)) in ks
  }

  /** The cells of row r among its first n columns whose tile is in ks, left to right. */
  function RowMarks(grid: seq<string>, r: nat, n: nat, ks: set<Tile>): seq<Cell>
  {
    if n == 0 then []
    else
      RowMarks(grid, r, n - 1, ks) +
      (if IsCode(grid, Cell(r, n - 1), ks) then [Cell(r, n - 1)] else [])
  }

  /** The cells of the first n rows whose tile is in ks, in row-major order. */
  function GridMarks(grid: seq<string>, n: nat, ks: set<Tile>): seq<Cell>
    requires n <= |grid|
  {
    if n == 0 then []
    else GridMarks(grid, n - 1, ks) + RowMarks(grid, n - 1, |grid[n - 1]|, ks)
  }

  function Marks(grid: seq<string>, ks: set<Tile>): seq<Cell>
  {
    GridMarks(grid, |grid|, ks)
  }

  function TileRect(c: Cell): Rect
  {
    Rect((TILE_SIZE * c.col) as real, (TILE_SIZE * c.row) as real, TILE_SIZE as real, TILE_SIZE as real)
  }

  /** A gem's rectangle: its tile inset by GEM_INSET on every side. */
  function GemRect(c: Cell): Rect
  {
    Rect((TILE_SIZE * c.col + GEM_INSET) as real, (TILE_SIZE * c.row + GEM_INSET) as real,
         (TILE_SIZE - 2 * GEM_INSET) as real, (TILE_SIZE - 2 * GEM_INSET) as real)
  }

  /** Where a character stands when its spawn marker is cell c: centred
      horizontally and vertically in the tile. */
  function SpawnPoint(c: Cell): Vec
  {
    Vec((TILE_SIZE * c.col) as real + (TILE_SIZE as real - PLAYER_WIDTH) / 2.0,
        (TILE_SIZE * c.row) as real + (TILE_SIZE as real - PLAYER_HEIGHT) / 2.0)
  }

  datatype Gem = Gem(rect: Rect, isRed: bool, collected: bool)

  function GemAt(grid: seq<string>, c: Cell): Gem
  {
    Gem(GemRect(c), Classify(CharAt(grid, c)) == GemRed, false)
  }

  function TileRects(cs: seq<Cell>): (rs: seq<Rect>)
    ensures |rs| == |cs|
    ensures forall i :: 0 <= i < |cs| ==> rs[i] == TileRect(cs[i])
  {
    if |cs| == 0 then [] else TileRects(cs[..|cs| - 1]) + [TileRect(cs[|cs| - 1])]
  }

  function GemsAt(grid: seq<string>, cs: seq<Cell>): (gs: seq<Gem>)
    ensures |gs| == |cs|
    ensures forall i :: 0 <= i < |cs| ==> gs[i] == GemAt(grid, cs[i])
  {
    if |cs| == 0 then [] else GemsAt(grid, cs[..|cs| - 1]) + [GemAt(grid, cs[|cs| - 1])]
  }

  /** The spawn set by the last marker seen, (0, 0) when there is none. */
  function LastSpawn(cs: seq<Cell>): Vec
  {
    if |cs| == 0 then Vec(0.0, 0.0) else SpawnPoint(cs[|cs| - 1])
  }

  /** The exit set by the last marker seen, the empty rectangle when there is none. */
  function LastTile(cs: seq<Cell>): Rect
  {
    if |cs| == 0 then Rect(0.0, 0.0, 0.0, 0.0) else TileRect(cs[|cs| - 1])
  }

  /** Everything the parse pass produces. */
  datatype Level = Level(
    solids: seq<Rect>,
    waterTiles: seq<Rect>,
    lavaTiles: seq<Rect>,
    gems: seq<Gem>,
    fireSpawn: Vec,
    waterSpawn: Vec,
    exitRed: Rect,
    hasExitRed: bool,
    exitBlue: Rect,
    hasExitBlue: bool)

  /** What parsing a grid yields, stated through the marked cells. */
  function Parsed(grid: seq<string>): Level
  {
    Level(
      TileRects(Marks(grid, {Solid})),
      TileRects(Marks(grid, {Water})),
      TileRects(Marks(grid, {Lava})),
      GemsAt(grid, Marks(grid, {GemRed, GemBlue})),
      LastSpawn(Marks(grid, {SpawnFire})),
      LastSpawn(Marks(grid, {SpawnWater})),
      LastTile(Marks(grid, {ExitRed})),
      |Marks(grid, {ExitRed})| > 0,
      LastTile(Marks(grid, {ExitBlue})),
      |Marks(grid, {ExitBlue})| > 0)
  }

  /** The cells with a tile in ks among the first r rows and the first c
      columns of row r: what the parse loop has seen at (r, c). */
  function Scanned(grid: seq<string>, r: nat, c: nat, ks: set<Tile>): seq<Cell>
    requires r <= |grid|
  {
    GridMarks(grid, r, ks) + RowMarks(grid, r, c, ks)
  }

  /** The parse accumulators once the loop has reached (r, c). */
  function Gathered(grid: seq<string>, r: nat, c: nat): Level
    requires r <= |grid|
  {
    Level(
      TileRects(Scanned(grid, r, c, {Solid})),
      TileRects(Scanned(grid, r, c, {Water})),
      TileRects(Scanned(grid, r, c, {Lava})),
      GemsAt(grid, Scanned(grid, r, c, {GemRed, GemBlue})),
      LastSpawn(Scanned(grid, r, c, {SpawnFire})),
      LastSpawn(Scanned(grid, r, c, {SpawnWater})),
      LastTile(Scanned(grid, r, c, {ExitRed})),
      |Scanned(grid, r, c, {ExitRed})| > 0,
      LastTile(Scanned(grid, r, c, {ExitBlue})),
      |Scanned(grid, r, c, {ExitBlue})| > 0)
  }

  /** Advancing the parse position by one column adds the cell at (r, c)
      exactly when its tile is in ks. */
  lemma ScannedStep(grid: seq<string>, r: nat, c: nat, ks: set<Tile>)
    requires r < |grid| && c < |grid[r]|
    ensures Scanned(grid, r, c + 1, ks) ==
      Scanned(grid, r, c, ks) + (if Classify(grid[r][c]) in ks then [Cell(r, c)] else [])
  {
    assert CharAt(grid, Cell(r, c)) == grid[r][c];
  }

  lemma ScannedRectsStep(grid: seq<string>, r: nat, c: nat, ks: set<Tile>)
    requires r < |grid| && c < |grid[r]|
    ensures TileRects(Scanned(grid, r, c + 1, ks)) ==
      TileRects(Scanned(grid, r, c, ks)) + (if Classify(grid[r][c]) in ks then [TileRect(Cell(r, c))] else [])
  {
    ScannedStep(grid, r, c, ks);
    var a := Scanned(grid, r, c, ks);
    if Classify(grid[r][c]) in ks {
      assert (a + [Cell(r, c)])[..|a|] == a;
    } else {
      assert a + [] == a;
    }
  }

  lemma ScannedGemsStep(grid: seq<string>, r: nat, c: nat)
    requires r < |grid| && c < |grid[r]|
    ensures var t := Classify(grid[r][c]);
      GemsAt(grid, Scanned(grid, r, c + 1, {GemRed, GemBlue})) ==
      GemsAt(grid, Scanned(grid, r, c, {GemRed, GemBlue})) +
      (if t in {GemRed, GemBlue} then [Gem(GemRect(Cell(r, c)), t == GemRed, false)] else [])
  {
    var ks := {GemRed, GemBlue};
    ScannedStep(grid, r, c, ks);
    var a := Scanned(grid, r, c, ks);
    assert CharAt(grid, Cell(r, c)) == grid[r][c];
    if Classify(grid[r][c]) in ks {
      assert (a + [Cell(r, c)])[..|a|] == a;
    } else {
      assert a + [] == a;
    }
  }

  lemma ScannedLastStep(grid: seq<string>, r: nat, c: nat, t: Tile)
    requires r < |grid| && c < |grid[r]|
    ensures var hit := Classify(grid[r][c]) == t;
      && LastSpawn(Scanned(grid, r, c + 1, {t})) ==
         (if hit then SpawnPoint(Cell(r, c)) else LastSpawn(Scanned(grid, r, c, {t})))
      && LastTile(Scanned(grid, r, c + 1, {t})) ==
         (if hit then TileRect(Cell(r, c)) else LastTile(Scanned(grid, r, c, {t})))
      && (|Scanned(grid, r, c + 1, {t})| > 0) == (|Scanned(grid, r, c, {t})| > 0 || hit)
  {
    ScannedStep(grid, r, c, {t});
  }

  /** What one cell holding a tile t adds to the parse accumulators: one
      rectangle on the list of its kind, or a new spawn point or exit. */
  predicate Absorbs(acc: Level, t: Tile, cell: Cell, next: Level)
  {
    && next.solids == acc.solids + (if t == Solid then [TileRect(cell)] else [])
    && next.waterTiles == acc.waterTiles + (if t == Water then [TileRect(cell)] else [])
    && next.lavaTiles == acc.lavaTiles + (if t == Lava then [TileRect(cell)] else [])
    && next.gems == acc.gems + (if t in {GemRed, GemBlue} then [Gem(GemRect(cell), t == GemRed, false)] else [])
    && next.fireSpawn == (if t == SpawnFire then SpawnPoint(cell) else acc.fireSpawn)
    && next.waterSpawn == (if t == SpawnWater then SpawnPoint(cell) else acc.waterSpawn)
    && next.exitRed == (if t == ExitRed then TileRect(cell) else acc.exitRed)
    && next.hasExitRed == (acc.hasExitRed || t == ExitRed)
    && next.exitBlue == (if t == ExitBlue then TileRect(cell) else acc.exitBlue)
    && next.hasExitBlue == (acc.hasExitBlue || t == ExitBlue)
  }

  /** One more column scanned is one more cell absorbed. */
  lemma GatheredStep(grid: seq<string>, r: nat, c: nat, next: Level)
    requires r < |grid| && c < |grid[r]|
    requires Absorbs(Gathered(grid, r, c), Classify(grid[r][c]), Cell(r, c), next)
    ensures next == Gathered(grid, r, c + 1)
  {
    ScannedRectsStep(grid, r, c, {Solid});
    ScannedRectsStep(grid, r, c, {Water});
    ScannedRectsStep(grid, r, c, {Lava});
    ScannedGemsStep(grid, r, c);
    ScannedLastStep(grid, r, c, SpawnFire);
    ScannedLastStep(grid, r, c, SpawnWater);
    ScannedLastStep(grid, r, c, ExitRed);
    ScannedLastStep(grid, r, c, ExitBlue);
  }

  lemma GatheredRow(grid: seq<string>, r: nat)
    requires r < |grid|
    ensures Gathered(grid, r, |grid[r]|) == Gathered(grid, r + 1, 0)
  {
  }

  lemma GatheredAll(grid: seq<string>)
    ensures Gathered(grid, |grid|, 0) == Parsed(grid)
  {
  }

  /** The body of the parse loop: the cell holding ch is classified and absorbed. */
  method ScanCell(acc: Level, ch: char, cell: Cell) returns (next: Level)
    ensures Absorbs(acc, Classify(ch), cell, next)
  {
    next := acc;
    if ch == Code(Solid) {
      next := next.(solids := next.solids + [TileRect(cell)]);
    } else if ch == Code(Water) {
      next := next.(waterTiles := next.waterTiles + [TileRect(cell)]);
    } else if ch == Code(Lava) {
      next := next.(lavaTiles := next.lavaTiles + [TileRect(cell)]);
    } else if ch == Code(GemRed) {
      next := next.(gems := next.gems + [Gem(GemRect(cell), true, false)]);
    } else if ch == Code(GemBlue) {
      next := next.(gems := next.gems + [Gem(GemRect(cell), false, false)]);
    } else if ch == Code(SpawnFire) {
      next := next.(fireSpawn := SpawnPoint(cell));
    } else if ch == Code(SpawnWater) {
      next := next.(waterSpawn := SpawnPoint(cell));
    } else if ch == Code(ExitRed) {
      next := next.(exitRed := TileRect(cell), hasExitRed := true);
    } else if ch == Code(ExitBlue) {
      next := next.(exitBlue := TileRect(cell), hasExitBlue := true);
    }
  }

  /** The parse loop: one pass over the cells in row-major order. */
  method ParseLevel(grid: seq<string>, cols: nat) returns (lv: Level)
    requires forall r :: 0 <= r < |grid| ==> |grid[r]| == cols
    ensures lv == Parsed(grid)
  {
    lv := Level([], [], [], [], Vec(0.0, 0.0), Vec(0.0, 0.0),
                Rect(0.0, 0.0, 0.0, 0.0), false, Rect(0.0, 0.0, 0.0, 0.0), false);
    for r := 0 to |grid|
      invariant lv == Gathered(grid, r, 0)
    {
      for c := 0 to cols
        invariant lv == Gathered(grid, r, c)
      {
        lv := ScanCell(lv, grid[r][c], Cell(r, c));
        GatheredStep(grid, r, c, lv);
      }
      GatheredRow(grid, r);
    }
    GatheredAll(grid);
  }

  // ---------------------------------------------------------------------
  // What parsing yields
  // ---------------------------------------------------------------------

  /** How many times x occurs in s. */
  function Occurrences<T(==)>(s: seq<T>, x: T): nat
  {
    if |s| == 0 then 0 else Occurrences(s[..|s| - 1], x) + if s[|s| - 1] == x then 1 else 0
  }

  lemma {:induction false} OccurrencesAppend<T>(a: seq<T>, b: seq<T>, x: T)
    ensures Occurrences(a + b, x) == Occurrences(a, x) + Occurrences(b, x)
  {
    if |b| > 0 {
      OccurrencesAppend(a, b[..|b| - 1], x);
      assert (a + b)[..|a + b| - 1] == a + b[..|b| - 1];
    } else {
      assert a + b == a;
    }
  }

  /** Occurrences is the multiplicity in the multiset of the sequence. */
  lemma {:induction false} OccurrencesMultiset<T>(s: seq<T>, x: T)
    ensures Occurrences(s, x) == multiset(s)[x]
  {
    if |s| > 0 {
      OccurrencesMultiset(s[..|s| - 1], x);
      assert s == s[..|s| - 1] + [s[|s| - 1]];
    }
  }

  lemma {:induction false} RowMarksCount(grid: seq<string>, r: nat, n: nat, ks: set<Tile>, c: Cell)
    ensures Occurrences(RowMarks(grid, r, n, ks), c) ==
      if c.row == r && c.col < n && IsCode(grid, c, ks) then 1 else 0
  {
    if n > 0 {
      var last := Cell(r, n - 1);
      RowMarksCount(grid, r, n - 1, ks, c);
      OccurrencesAppend(RowMarks(grid, r, n - 1, ks), if IsCode(grid, last, ks) then [last] else [], c);
    }
  }

  lemma {:induction false} GridMarksCount(grid: seq<string>, n: nat, ks: set<Tile>, c: Cell)
    requires n <= |grid|
    ensures Occurrences(GridMarks(grid, n, ks), c) == if c.row < n && IsCode(grid, c, ks) then 1 else 0
  {
    if n > 0 {
      GridMarksCount(grid, n - 1, ks, c);
      RowMarksCount(grid, n - 1, |grid[n - 1]|, ks, c);
      OccurrencesAppend(GridMarks(grid, n - 1, ks), RowMarks(grid, n - 1, |grid[n - 1]|, ks), c);
    }
  }

  /** Every cell whose tile is in ks is marked exactly once; no other cell is marked. */
  lemma MarksCount(grid: seq<string>, ks: set<Tile>, c: Cell)
    ensures multiset(Marks(grid, ks))[c] == if IsCode(grid, c, ks) then 1 else 0
  {
    GridMarksCount(grid, |grid|, ks, c);
    OccurrencesMultiset(Marks(grid, ks), c);
  }

  lemma MarksSound(grid: seq<string>, ks: set<Tile>)
    ensures forall i :: 0 <= i < |Marks(grid, ks)| ==> IsCode(grid, Marks(grid, ks)[i], ks)
  {
    var m := Marks(grid, ks);
    forall i | 0 <= i < |m|
      ensures IsCode(grid, m[i], ks)
    {
      MarksCount(grid, ks, m[i]);
    }
  }

  /** Some cell is marked exactly when the grid holds a code of ks. */
  lemma MarksPresent(grid: seq<string>, ks: set<Tile>)
    ensures |Marks(grid, ks)| > 0 <==> exists c :: IsCode(grid, c, ks)
  {
    var m := Marks(grid, ks);
    MarksSound(grid, ks);
    if c :| IsCode(grid, c, ks) {
      MarksCount(grid, ks, c);
      assert c in multiset(m);
    }
  }

  lemma TileRectInjective(c: Cell, d: Cell)
    ensures TileRect(c) == TileRect(d) <==> c == d
  {
    if TileRect(c) == TileRect(d) {
      assert TILE_SIZE * c.col == TILE_SIZE * d.col && TILE_SIZE * c.row == TILE_SIZE * d.row;
    }
  }

  /** Removing the last cell takes one occurrence of it off the count. */
  lemma CellCountSnoc(cs: seq<Cell>, c: Cell)
    requires |cs| > 0
    ensures multiset(cs)[c] == multiset(cs[..|cs| - 1])[c] + if cs[|cs| - 1] == c then 1 else 0
  {
    assert cs == cs[..|cs| - 1] + [cs[|cs| - 1]];
  }

  lemma {:induction false} TileRectsCount(cs: seq<Cell>, c: Cell)
    ensures multiset(TileRects(cs))[TileRect(c)] == multiset(cs)[c]
  {
    if |cs| > 0 {
      var front, last := cs[..|cs| - 1], cs[|cs| - 1];
      TileRectsCount(front, c);
      CellCountSnoc(cs, c);
      TileRectInjective(last, c);
      assert multiset(TileRects(cs)) == multiset(TileRects(front)) + multiset{TileRect(last)};
    }
  }

  lemma GemAtInjective(grid: seq<string>, c: Cell, d: Cell)
    ensures GemAt(grid, c) == GemAt(grid, d) <==> c == d
  {
    if GemAt(grid, c) == GemAt(grid, d) {
      assert GemRect(c) == GemRect(d);
    }
  }

  lemma {:induction false} GemsAtCount(grid: seq<string>, cs: seq<Cell>, c: Cell)
    ensures multiset(GemsAt(grid, cs))[GemAt(grid, c)] == multiset(cs)[c]
  {
    if |cs| > 0 {
      var front, last := cs[..|cs| - 1], cs[|cs| - 1];
      GemsAtCount(grid, front, c);
      CellCountSnoc(cs, c);
      GemAtInjective(grid, last, c);
      assert multiset(GemsAt(grid, cs)) == multiset(GemsAt(grid, front)) + multiset{GemAt(grid, last)};
    }
  }

  /** Parsing emits exactly one rectangle for each cell of a kind, and none
      for a cell of another kind or an unrecognised character. */
  lemma ParsedTilesExact(grid: seq<string>, c: Cell)
    ensures multiset(Parsed(grid).solids)[TileRect(c)] == if IsCode(grid, c, {Solid}) then 1 else 0
    ensures multiset(Parsed(grid).waterTiles)[TileRect(c)] == if IsCode(grid, c, {Water}) then 1 else 0
    ensures multiset(Parsed(grid).lavaTiles)[TileRect(c)] == if IsCode(grid, c, {Lava}) then 1 else 0
    ensures multiset(Parsed(grid).gems)[GemAt(grid, c)] == if IsCode(grid, c, {GemRed, GemBlue}) then 1 else 0
  {
    MarksCount(grid, {Solid}, c);
    TileRectsCount(Marks(grid, {Solid}), c);
    MarksCount(grid, {Water}, c);
    TileRectsCount(Marks(grid, {Water}), c);
    MarksCount(grid, {Lava}, c);
    TileRectsCount(Marks(grid, {Lava}), c);
    MarksCount(grid, {GemRed, GemBlue}, c);
    GemsAtCount(grid, Marks(grid, {GemRed, GemBlue}), c);
  }

  /** Every parsed solid, water and lava rectangle is the tile of a cell
      with that code. */
  lemma ParsedTilesSound(grid: seq<string>)
    ensures forall x :: x in Parsed(grid).solids ==> exists c :: IsCode(grid, c, {Solid}) && x == TileRect(c)
    ensures forall x :: x in Parsed(grid).waterTiles ==> exists c :: IsCode(grid, c, {Water}) && x == TileRect(c)
    ensures forall x :: x in Parsed(grid).lavaTiles ==> exists c :: IsCode(grid, c, {Lava}) && x == TileRect(c)
  {
    MarksSound(grid, {Solid});
    MarksSound(grid, {Water});
    MarksSound(grid, {Lava});
  }

  /** Every parsed gem is inset in an 'r' or 'b' cell, is red exactly for
      'r', and starts uncollected. */
  lemma ParsedGemsSound(grid: seq<string>)
    ensures forall g :: g in Parsed(grid).gems ==>
      exists c :: IsCode(grid, c, {GemRed, GemBlue}) && g == Gem(GemRect(c), grid[c.row][c.col] == 'r', false)
  {
    var gm := Marks(grid, {GemRed, GemBlue});
    MarksSound(grid, {GemRed, GemBlue});
    forall g | g in Parsed(grid).gems
      ensures exists c :: IsCode(grid, c, {GemRed, GemBlue}) && g == Gem(GemRect(c), grid[c.row][c.col] == 'r', false)
    {
      var i :| 0 <= i < |gm| && g == GemAt(grid, gm[i]);
      var c := gm[i];
      assert IsCode(grid, c, {GemRed, GemBlue});
      assert CharAt(grid, c) == grid[c.row][c.col];
      assert (Classify(grid[c.row][c.col]) == GemRed) == (grid[c.row][c.col] == 'r');
    }
  }

  /** An exit is present exactly when the grid holds its code, and then it
      is the tile of such a cell. */
  lemma ParsedExits(grid: seq<string>)
    ensures Parsed(grid).hasExitRed <==> exists c :: IsCode(grid, c, {ExitRed})
    ensures Parsed(grid).hasExitRed ==> exists c :: IsCode(grid, c, {ExitRed}) && Parsed(grid).exitRed == TileRect(c)
    ensures Parsed(grid).hasExitBlue <==> exists c :: IsCode(grid, c, {ExitBlue})
    ensures Parsed(grid).hasExitBlue ==> exists c :: IsCode(grid, c, {ExitBlue}) && Parsed(grid).exitBlue == TileRect(c)
  {
    MarksPresent(grid, {ExitRed});
    MarksSound(grid, {ExitRed});
    MarksPresent(grid, {ExitBlue});
    MarksSound(grid, {ExitBlue});
  }

  /** The parsed spawn stays (0, 0) exactly when the grid has no marker for
      it: a marker's spawn point is never (0, 0). Otherwise it is the spawn
      point of such a marker. */
  lemma ParsedSpawns(grid: seq<string>)
    ensures Parsed(grid).fireSpawn == Vec(0.0, 0.0) <==> !exists c :: IsCode(grid, c, {SpawnFire})
    ensures Parsed(grid).fireSpawn != Vec(0.0, 0.0) ==>
      exists c :: IsCode(grid, c, {SpawnFire}) && Parsed(grid).fireSpawn == SpawnPoint(c)
    ensures Parsed(grid).waterSpawn == Vec(0.0, 0.0) <==> !exists c :: IsCode(grid, c, {SpawnWater})
    ensures Parsed(grid).waterSpawn != Vec(0.0, 0.0) ==>
      exists c :: IsCode(grid, c, {SpawnWater}) && Parsed(grid).waterSpawn == SpawnPoint(c)
  {
    MarksPresent(grid, {SpawnFire});
    MarksSound(grid, {SpawnFire});
    MarksPresent(grid, {SpawnWater});
    MarksSound(grid, {SpawnWater});
  }
}
